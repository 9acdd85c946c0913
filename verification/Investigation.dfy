/**
 The investigation graph: a fixed pipeline, a verdict branch, and a human gate that may send the
 case round again. Every checkpoint is retained and any of them may be continued from.
 */
module Investigation {
  import opened Common
  import opened Reducers

  datatype Node =
    | IngestSeed | LogAnalysis | ThreatDetection | CveResearch | Report
    | Remediation | Triage | HumanGate | Notify | Close

  datatype Verdict = Benign | Suspicious | Malicious

  datatype Status = Open | InProgress | AwaitingApproval | Closed

  /** The part of the graph state that control depends on, and the node to run next (none at the end). */
  datatype State = State(
    history: seq<Transition<Node>>,
    verdict: Option<Verdict>,
    decisions: seq<DecisionType>,
    pending: seq<nat>,
    status: Status,
    next: Option<Node>)

  /** What comes from outside a node: the assessment, the analyst's decision, the assembled alert. */
  datatype Input = Input(verdict: Option<Verdict>, decision: DecisionType, alert: nat)

  const NEW_STATE := State([], None, [], [], Open, Some(IngestSeed))

  function RouteAfterThreat(s: State): Node { if s.verdict == Some(Benign) then Report else CveResearch }

  function RouteAfterGate(s: State): Node {
    if s.decisions != [] && Last(s.decisions) == Redirect then Triage
    else if s.decisions != [] && Last(s.decisions) == Approve then Notify
    else Close
  }

  /** The update a node writes, merged by the reducers: lists append, scalars overwrite. */
  function Execute(s: State, node: Node, input: Input): State {
    var logged := s.(history := s.history + Stamp([Transition(0, node)], |s.history|));
    match node
    case IngestSeed => logged.(status := InProgress)
    case ThreatDetection => logged.(verdict := input.verdict)
    case Triage => logged.(status := AwaitingApproval)
    case HumanGate => logged.(decisions := s.decisions + [input.decision])
    case Notify => logged.(pending := s.pending + [input.alert])
    case Close => logged.(status := Closed)
    case _ => logged
  }

  /** The edges of the graph. */
  function Successor(s: State, node: Node): Option<Node> {
    match node
    case IngestSeed => Some(LogAnalysis)
    case LogAnalysis => Some(ThreatDetection)
    case ThreatDetection => Some(RouteAfterThreat(s))
    case CveResearch => Some(Report)
    case Report => Some(Remediation)
    case Remediation => Some(Triage)
    case Triage => Some(HumanGate)
    case HumanGate => Some(RouteAfterGate(s))
    case Notify => Some(Close)
    case Close => None
  }

  function Step(s: State, input: Input): State {
    if s.next.None? then s
    else
      var after := Execute(s, s.next.value, input);
      after.(next := Successor(after, s.next.value))
  }

  // ----- The shape of every run

  function Nodes(s: State): seq<Node> {
    seq(|s.history|, i requires 0 <= i < |s.history| => s.history[i].node)
  }

  /** Rounds of triage and gate. */
  function Rounds(n: nat): seq<Node> { seq(2 * n, i => if i % 2 == 0 then Triage else HumanGate) }

  function Analysis(verdict: Option<Verdict>): seq<Node> {
    [IngestSeed, LogAnalysis, ThreatDetection] + (if verdict == Some(Benign) then [] else [CveResearch])
  }

  function Prepared(verdict: Option<Verdict>): seq<Node> { Analysis(verdict) + [Report, Remediation] }

  ghost predicate AllRedirect(decisions: seq<DecisionType>) {
    forall i :: 0 <= i < |decisions| ==> decisions[i] == Redirect
  }

  /** Every decision but the last sent the case round again; the last one did not. */
  ghost predicate Settled(decisions: seq<DecisionType>) {
    decisions != [] && AllRedirect(decisions[..|decisions| - 1]) && Last(decisions) != Redirect
  }

  /** What a run has done once its gate let it out: notify if and only if the last decision approves. */
  function Exit(decisions: seq<DecisionType>): seq<Node>
    requires decisions != []
  {
    if Last(decisions) == Approve then [Notify] else []
  }

  /** The whole history is determined by the verdict, the decisions and where the run stands. */
  ghost predicate OnTrack(s: State) {
    var n := |s.decisions|;
    match s.next
    case Some(IngestSeed) => Nodes(s) == [] && n == 0
    case Some(LogAnalysis) => Nodes(s) == [IngestSeed] && n == 0
    case Some(ThreatDetection) => Nodes(s) == [IngestSeed, LogAnalysis] && n == 0
    case Some(CveResearch) => Nodes(s) == [IngestSeed, LogAnalysis, ThreatDetection] && n == 0
      && s.verdict != Some(Benign)
    case Some(Report) => Nodes(s) == Analysis(s.verdict) && n == 0
    case Some(Remediation) => Nodes(s) == Analysis(s.verdict) + [Report] && n == 0
    case Some(Triage) => Nodes(s) == Prepared(s.verdict) + Rounds(n) && AllRedirect(s.decisions)
    case Some(HumanGate) => Nodes(s) == Prepared(s.verdict) + Rounds(n) + [Triage] && AllRedirect(s.decisions)
    case Some(Notify) => Settled(s.decisions) && Last(s.decisions) == Approve
      && Nodes(s) == Prepared(s.verdict) + Rounds(n)
    case Some(Close) => Settled(s.decisions) && Nodes(s) == Prepared(s.verdict) + Rounds(n) + Exit(s.decisions)
    case None => Settled(s.decisions) && Nodes(s) == Prepared(s.verdict) + Rounds(n) + Exit(s.decisions) + [Close]
  }

  ghost predicate Numbered(s: State) { forall i :: 0 <= i < |s.history| ==> s.history[i].sequence == i }

  function Count(nodes: seq<Node>, x: Node): nat {
    if nodes == [] then 0 else Count(nodes[..|nodes| - 1], x) + if Last(nodes) == x then 1 else 0
  }

  /** Every `x` comes right after a `y`. */
  ghost predicate Follows(nodes: seq<Node>, x: Node, y: Node) {
    forall i, j :: 0 <= i < j < |nodes| && j == i + 1 && nodes[j] == x ==> nodes[i] == y
  }

  ghost predicate NotFirst(nodes: seq<Node>, x: Node) { nodes != [] ==> nodes[0] != x }

  /** An alert is assembled only on the way out after an approval. */
  function Alerts(s: State): nat {
    if (s.next == Some(Close) || s.next.None?) && s.decisions != [] && Last(s.decisions) == Approve then 1 else 0
  }

  /** Vulnerability research runs only on non-benign verdicts, and has run by the time the report has. */
  ghost predicate Researched(s: State) {
    && (CveResearch in Nodes(s) ==> s.verdict != Some(Benign))
    && (Report in Nodes(s) && s.verdict != Some(Benign) ==> CveResearch in Nodes(s))
  }

  ghost predicate Counted(s: State) {
    && Count(Nodes(s), HumanGate) == |s.decisions|
    && Count(Nodes(s), Notify) == |s.pending| == Alerts(s)
  }

  ghost predicate Placed(nodes: seq<Node>) {
    && Follows(nodes, HumanGate, Triage) && NotFirst(nodes, HumanGate)
    && Follows(nodes, Notify, HumanGate) && NotFirst(nodes, Notify)
  }

  ghost predicate Sound(s: State) {
    && OnTrack(s) && Numbered(s) && Researched(s) && Counted(s) && Placed(Nodes(s))
    && s.status == Standing(s)
  }

  /** In progress until triage first ran, then with the analyst until the run closes. */
  function Standing(s: State): Status {
    if s.next.None? then Closed
    else if s.next == Some(IngestSeed) then Open
    else if s.next.value in {HumanGate, Notify, Close} || s.decisions != [] then AwaitingApproval
    else InProgress
  }

  lemma StepLogs(s: State, input: Input)
    requires s.next.Some?
    ensures Nodes(Step(s, input)) == Nodes(s) + [s.next.value]
    ensures Numbered(s) ==> Numbered(Step(s, input))
  {
  }

  lemma OneMoreRound(n: nat)
    ensures Rounds(n + 1) == Rounds(n) + [Triage] + [HumanGate]
  {
  }

  lemma CountSnoc(nodes: seq<Node>, last: Node, x: Node)
    ensures Count(nodes + [last], x) == Count(nodes, x) + if last == x then 1 else 0
  {
  }

  lemma StepKeeps(s: State, input: Input)
    requires Sound(s)
    ensures Sound(Step(s, input))
  {
    if s.next.Some? {
      StepLogs(s, input);
      StepOnTrack(s, input);
      StepResearched(s, input);
      StepCounted(s, input);
      if s.decisions != [] {
        AfterTheGate(s);
      }
      StepStanding(s, input);
      EndsRight(s);
      PlaceNext(Nodes(s), s.next.value);
    }
  }

  lemma StepStanding(s: State, input: Input)
    requires s.status == Standing(s) && s.next.Some?
    requires s.decisions != [] ==> s.next.value in {Triage, HumanGate, Notify, Close}
    ensures Step(s, input).status == Standing(Step(s, input))
  {
  }

  /** Once a decision was taken, only the loop and the exit are left. */
  lemma AfterTheGate(s: State)
    requires OnTrack(s) && s.decisions != [] && s.next.Some?
    ensures s.next.value in {Triage, HumanGate, Notify, Close}
  {
  }

  lemma StepCounted(s: State, input: Input)
    requires OnTrack(s) && Counted(s) && s.next.Some?
    ensures Counted(Step(s, input))
  {
    StepLogs(s, input);
    CountSnoc(Nodes(s), s.next.value, Notify);
    CountSnoc(Nodes(s), s.next.value, HumanGate);
  }

  lemma PlaceNext(nodes: seq<Node>, next: Node)
    requires Placed(nodes)
    requires next == HumanGate ==> nodes != [] && Last(nodes) == Triage
    requires next == Notify ==> nodes != [] && Last(nodes) == HumanGate
    ensures Placed(nodes + [next])
  {
  }

  lemma AnalysisHasCve(verdict: Option<Verdict>)
    ensures CveResearch in Analysis(verdict) <==> verdict != Some(Benign)
    ensures Report !in Analysis(verdict)
  {
  }

  lemma StepResearched(s: State, input: Input)
    requires OnTrack(s) && Researched(s) && s.next.Some?
    ensures Researched(Step(s, input))
  {
    StepLogs(s, input);
    AnalysisHasCve(s.verdict);
  }

  /** Before the gate comes triage; before a notification comes the gate. */
  lemma EndsRight(s: State)
    requires OnTrack(s)
    ensures s.next == Some(HumanGate) ==> Nodes(s) != [] && Last(Nodes(s)) == Triage
    ensures s.next == Some(Notify) ==> Nodes(s) != [] && Last(Nodes(s)) == HumanGate
  {
  }

  lemma StepOnTrack(s: State, input: Input)
    requires OnTrack(s) && s.next.Some?
    ensures OnTrack(Step(s, input))
  {
    StepLogs(s, input);
    if s.next.value == HumanGate {
      GateKeeps(s, input);
    } else if s.next.value == Remediation {
      assert Rounds(0) == [];
      assert Prepared(s.verdict) == Analysis(s.verdict) + [Report] + [Remediation];
      assert Prepared(s.verdict) + [] == Prepared(s.verdict);
    }
  }

  lemma RoundDone(verdict: Option<Verdict>, n: nat)
    ensures Prepared(verdict) + Rounds(n) + [Triage] + [HumanGate] == Prepared(verdict) + Rounds(n + 1)
  {
    OneMoreRound(n);
    var p := Prepared(verdict);
    assert p + (Rounds(n) + [Triage] + [HumanGate]) == p + Rounds(n) + [Triage] + [HumanGate];
  }

  lemma GateKeeps(s: State, input: Input)
    requires OnTrack(s) && s.next == Some(HumanGate)
    ensures OnTrack(Step(s, input))
  {
    var after := Step(s, input);
    StepLogs(s, input);
    RoundDone(s.verdict, |s.decisions|);
    assert Nodes(after) == Prepared(after.verdict) + Rounds(|after.decisions|);
    assert after.decisions[..|after.decisions| - 1] == s.decisions;
    assert Nodes(after) + [] == Nodes(after);
  }

  // ----- All retained checkpoints

  /** Continue from retained checkpoint `from`, which stays retained. */
  datatype Continue = Continue(from: nat, input: Input)

  function Extend(checkpoints: seq<State>, c: Continue): seq<State> {
    if c.from < |checkpoints| then checkpoints + [Step(checkpoints[c.from], c.input)] else checkpoints
  }

  function Thread(continues: seq<Continue>): seq<State> {
    if continues == [] then [NEW_STATE] else Extend(Thread(continues[..|continues| - 1]), Last(continues))
  }

  /** Whatever checkpoint is continued from and whatever comes in, every checkpoint ever retained is sound. */
  lemma {:induction false} EveryCheckpointSound(continues: seq<Continue>)
    ensures forall i :: 0 <= i < |Thread(continues)| ==> Sound(Thread(continues)[i])
  {
    if continues != [] {
      var front, last := continues[..|continues| - 1], Last(continues);
      EveryCheckpointSound(front);
      if last.from < |Thread(front)| {
        StepKeeps(Thread(front)[last.from], last.input);
      }
    }
  }

  // ----- What the inputs on the way to a checkpoint were

  /** For every checkpoint, the inputs of the steps that led to it from the start. */
  function Paths(continues: seq<Continue>): seq<seq<Input>> {
    if continues == [] then [[]]
    else
      var paths, c := Paths(continues[..|continues| - 1]), Last(continues);
      if c.from < |paths| then paths + [paths[c.from] + [c.input]] else paths
  }

  /** The decisions analysts gave at the gates among the first `|nodes|` steps, in order. */
  function Given(nodes: seq<Node>, inputs: seq<Input>): seq<DecisionType>
    requires |nodes| <= |inputs|
  {
    if nodes == [] then []
    else
      var n := |nodes| - 1;
      Given(nodes[..n], inputs) + if nodes[n] == HumanGate then [inputs[n].decision] else []
  }

  /** The alerts assembled by the notify steps. */
  function Assembled(nodes: seq<Node>, inputs: seq<Input>): seq<nat>
    requires |nodes| <= |inputs|
  {
    if nodes == [] then []
    else
      var n := |nodes| - 1;
      Assembled(nodes[..n], inputs) + if nodes[n] == Notify then [inputs[n].alert] else []
  }

  /** The verdict of the last threat detection. */
  function Assessed(nodes: seq<Node>, inputs: seq<Input>): Option<Verdict>
    requires |nodes| <= |inputs|
  {
    if nodes == [] then None
    else
      var n := |nodes| - 1;
      if nodes[n] == ThreatDetection then inputs[n].verdict else Assessed(nodes[..n], inputs)
  }

  /** The state holds what was put in on its path: nothing is altered, dropped or made up. */
  ghost predicate Echoes(s: State, path: seq<Input>) {
    && |s.history| <= |path| && (s.next.Some? ==> |s.history| == |path|)
    && s.decisions == Given(Nodes(s), path)
    && s.pending == Assembled(Nodes(s), path)
    && s.verdict == Assessed(Nodes(s), path)
  }

  lemma {:induction false} LongerPath(nodes: seq<Node>, path: seq<Input>, input: Input)
    requires |nodes| <= |path|
    ensures Given(nodes, path + [input]) == Given(nodes, path)
    ensures Assembled(nodes, path + [input]) == Assembled(nodes, path)
    ensures Assessed(nodes, path + [input]) == Assessed(nodes, path)
  {
    if nodes != [] {
      LongerPath(nodes[..|nodes| - 1], path, input);
    }
  }

  lemma StepEchoes(s: State, path: seq<Input>, input: Input)
    requires Echoes(s, path)
    ensures Echoes(Step(s, input), path + [input])
  {
    LongerPath(Nodes(s), path, input);
    if s.next.Some? {
      StepLogs(s, input);
      var after := Nodes(Step(s, input));
      assert after[..|after| - 1] == Nodes(s);
    }
  }

  lemma {:induction false} EveryCheckpointEchoes(continues: seq<Continue>)
    ensures |Paths(continues)| == |Thread(continues)|
    ensures forall k :: 0 <= k < |Thread(continues)| ==> Echoes(Thread(continues)[k], Paths(continues)[k])
  {
    if continues != [] {
      var front, c := continues[..|continues| - 1], Last(continues);
      EveryCheckpointEchoes(front);
      if c.from < |Thread(front)| {
        StepEchoes(Thread(front)[c.from], Paths(front)[c.from], c.input);
      }
    }
  }

  /**
   On every retained checkpoint of every thread, with the inputs on its path: the recorded decisions
   are exactly those the analysts gave at the gates, in order, the verdict is the one threat
   detection came to, and the pending alerts are those assembled. Transitions are numbered by
   position, each gate comes right after triage, at most one alert was assembled, right after a
   gate where the analyst approved and after which nobody was asked again, and research happened
   exactly on non-benign verdicts.
   */
  lemma EveryCheckpointTellsTheStory(continues: seq<Continue>, k: nat)
    requires k < |Thread(continues)|
    ensures |Paths(continues)| == |Thread(continues)| && |Nodes(Thread(continues)[k])| <= |Paths(continues)[k]|
    ensures var s := Thread(continues)[k];
            var nodes, given := Nodes(s), Given(Nodes(s), Paths(continues)[k]);
            && s.decisions == given
            && s.verdict == Assessed(nodes, Paths(continues)[k])
            && s.pending == Assembled(nodes, Paths(continues)[k])
            && (forall i :: 0 <= i < |s.history| ==> s.history[i].sequence == i)
            && (forall i :: 0 <= i < |nodes| && nodes[i] == HumanGate ==> i > 0 && nodes[i - 1] == Triage)
            && (forall i :: 0 <= i < |nodes| && nodes[i] == Notify ==> i > 0 && nodes[i - 1] == HumanGate)
            && Count(nodes, HumanGate) == |given|
            && Count(nodes, Notify) == |s.pending| <= 1
            && (Notify in nodes ==> Settled(given) && Last(given) == Approve)
            && (s.next.None? ==> given != [] && (Last(given) == Approve ==> Notify in nodes))
            && (Report in nodes ==> (CveResearch in nodes <==> s.verdict != Some(Benign)))
  {
    EveryCheckpointSound(continues);
    EveryCheckpointEchoes(continues);
    var s := Thread(continues)[k];
    assert Sound(s) && Echoes(s, Paths(continues)[k]);
    CountIn(Nodes(s), Notify);
  }

  lemma {:induction false} CountIn(nodes: seq<Node>, x: Node)
    ensures x in nodes <==> Count(nodes, x) > 0
  {
    if nodes != [] {
      CountIn(nodes[..|nodes| - 1], x);
      assert nodes == nodes[..|nodes| - 1] + [Last(nodes)];
    }
  }
}
