/** From the sessions of an attempt to its capability breakdown and scenario
    evaluation: component building, node outcomes and the full evaluation. */
module CapabilityAggregation {
  import opened Collections
  import opened CapabilityMatrix
  import Graphs = ScenarioGraph
  import Verdicts = ScenarioVerdict
  import opened Scoring
  import opened Rounding

  datatype EvaluatorType = RetrieveValue | BackendState | UiState | FinalResponse

  datatype Evaluator = Evaluator(kind: EvaluatorType, name: string, score: real, status: Status, required: bool)

  /** A recorded action cost: absent, not a finite number, or a number. */
  datatype Cost = Missing | NonFinite | Recorded(actions: real)

  datatype Session = Session(
    id: string,
    taskSlug: string,
    variantId: Option<string>,
    status: Status,
    score: real,
    evaluators: seq<Evaluator>,
    recoveredFaultIds: seq<string>,
    cost: Cost)

  function IsParsed(): Evaluator -> bool {
    (e: Evaluator) => InUnit(e.score)
  }

  /** `safeParse` drops evaluator records whose score is out of range. */
  function ParsedEvaluators(raw: seq<Evaluator>): seq<Evaluator> {
    Filter(IsParsed(), raw)
  }

  function FirstCoverage(coverage: seq<Coverage>, taskSlug: string, variantId: string): (found: Option<Coverage>)
    ensures found.Some? ==> found.value in coverage
  {
    if coverage == [] then None
    else if coverage[0].taskSlug == taskSlug && coverage[0].variantId == variantId then Some(coverage[0])
    else FirstCoverage(coverage[1..], taskSlug, variantId)
  }

  function MatchingCoverage(m: Matrix, s: Session): (found: Option<Coverage>)
    ensures found.Some? ==> found.value in m.coverage
  {
    if s.variantId.None? || s.variantId.value == "" then None
    else FirstCoverage(m.coverage, s.taskSlug, s.variantId.value)
  }

  // Session components -----------------------------------------------------

  function FinalStateComponent(s: Session, c: Coverage): Component {
    Component("final-state:" + s.id, c.capabilityIds, FinalState, s.status,
      if s.status.Passed? then s.score else 0.0, 1.0, true)
  }

  function IsEvidence(): Evaluator -> bool {
    (e: Evaluator) => e.required && (e.kind.RetrieveValue? || e.kind.UiState?)
  }

  function EvidenceComponent(s: Session, c: Coverage): Option<Component> {
    var evaluators := Filter(IsEvidence(), ParsedEvaluators(s.evaluators));
    if evaluators == [] then None
    else
      var statuses := seq(|evaluators|, i requires 0 <= i < |evaluators| => evaluators[i].status);
      var scores := seq(|evaluators|, i requires 0 <= i < |evaluators| => Weighted(evaluators[i].score, 1.0));
      Some(Component("evidence:" + s.id, c.capabilityIds, EvidenceVerification,
        Verdict(statuses, true), Rounded(Mean(scores)), 1.0, true))
  }

  function CostScore(cost: real, budget: Budget): real
    requires budget.preferredMaxActions < budget.hardMaxActions
  {
    var preferred, hard := budget.preferredMaxActions as real, budget.hardMaxActions as real;
    if cost <= preferred then 1.0
    else if cost >= hard then 0.0
    else (hard - cost) / (hard - preferred)
  }

  function InteractionCostComponent(s: Session, c: Coverage): Option<Component>
    requires CoverageOk(c)
  {
    if InteractionCost !in c.dimensionIds || c.budget.None? || !s.cost.Recorded? || s.cost.actions < 0.0 then None
    else Some(Component("interaction-cost:" + s.id, c.capabilityIds, InteractionCost, Passed,
      Rounded(CostScore(s.cost.actions, c.budget.value)), 1.0, false))
  }

  function Listed(c: Option<Component>): seq<Component> {
    if c.Some? then [c.value] else []
  }

  /** The components that do not look at the action cost. */
  function CostFreeComponents(s: Session, c: Coverage): seq<Component> {
    (if FinalState in c.dimensionIds then [FinalStateComponent(s, c)] else [])
    + (if EvidenceVerification in c.dimensionIds then Listed(EvidenceComponent(s, c)) else [])
  }

  function ComponentsOfSession(m: Matrix, s: Session): seq<Component>
    requires forall c :: c in m.coverage ==> CoverageOk(c)
  {
    var coverage := MatchingCoverage(m, s);
    if coverage.None? then []
    else
      CostFreeComponents(s, coverage.value) + Listed(InteractionCostComponent(s, coverage.value))
  }

  function SessionComponents(m: Matrix, sessions: seq<Session>): seq<Component>
    requires forall c :: c in m.coverage ==> CoverageOk(c)
  {
    if sessions == [] then []
    else SessionComponents(m, sessions[..|sessions| - 1]) + ComponentsOfSession(m, sessions[|sessions| - 1])
  }

  method PushSessionComponents(m: Matrix, s: Session, pushed: seq<Component>) returns (components: seq<Component>)
    requires forall c :: c in m.coverage ==> CoverageOk(c)
    ensures components == pushed + ComponentsOfSession(m, s)
  {
    components := pushed;
    var coverage := MatchingCoverage(m, s);
    if coverage.None? {
      return;
    }
    if FinalState in coverage.value.dimensionIds {
      components := components + [FinalStateComponent(s, coverage.value)];
    }
    if EvidenceVerification in coverage.value.dimensionIds {
      var evidence := EvidenceComponent(s, coverage.value);
      if evidence.Some? {
        components := components + [evidence.value];
      }
    }
    var interactionCost := InteractionCostComponent(s, coverage.value);
    if interactionCost.Some? {
      components := components + [interactionCost.value];
    }
  }

  method BuildSessionComponents(m: Matrix, sessions: seq<Session>) returns (components: seq<Component>)
    requires forall c :: c in m.coverage ==> CoverageOk(c)
    ensures components == SessionComponents(m, sessions)
  {
    components := [];
    for i := 0 to |sessions|
      invariant components == SessionComponents(m, sessions[..i])
    {
      assert sessions[..i + 1][..i] == sessions[..i];
      components := PushSessionComponents(m, sessions[i], components);
    }
    assert sessions[..|sessions|] == sessions;
  }

  // Node outcomes ------------------------------------------------------------

  /** `new Map(sessions.map(...)).get(taskSlug)`: the last session of a task. */
  function SessionOfTask(sessions: seq<Session>, taskSlug: string): (found: Option<Session>)
    ensures found.Some? ==> found.value in sessions && found.value.taskSlug == taskSlug
  {
    if sessions == [] then None
    else if sessions[|sessions| - 1].taskSlug == taskSlug then Some(sessions[|sessions| - 1])
    else SessionOfTask(sessions[..|sessions| - 1], taskSlug)
  }

  function FirstNamed(evaluators: seq<Evaluator>, name: string): Option<Evaluator> {
    if evaluators == [] then None
    else if evaluators[0].name == name then Some(evaluators[0])
    else FirstNamed(evaluators[1..], name)
  }

  predicate ProvedBy(evaluators: seq<Evaluator>, name: string) {
    exists i :: 0 <= i < |evaluators| && evaluators[i].name == name && evaluators[i].status.Passed?
  }

  function RevisedNodes(edges: seq<Graphs.Edge>, nodeId: string, evaluators: seq<Evaluator>): seq<string> {
    if edges == [] then []
    else
      var e := edges[0];
      (if e.relation.Revises? && e.toNodeId == nodeId && e.proofEvaluatorName.Some?
          && ProvedBy(evaluators, e.proofEvaluatorName.value)
       then [e.fromNodeId] else [])
      + RevisedNodes(edges[1..], nodeId, evaluators)
  }

  function OutcomeStatusOf(status: Status): Verdicts.OutcomeStatus {
    match status
    case Passed => Verdicts.OutcomePassed
    case Failed => Verdicts.OutcomeFailed
    case Errored => Verdicts.OutcomeError
  }

  function OutcomeOfNode(g: Graphs.Graph, sessions: seq<Session>, node: Graphs.Node): (outcome: Option<Verdicts.Outcome>)
    ensures outcome.Some? ==> outcome.value.nodeId == node.id
  {
    var session := SessionOfTask(sessions, node.taskSlug);
    if session.None? then None
    else
      var s := session.value;
      var evaluators := ParsedEvaluators(s.evaluators);
      if node.kind.Distractor? then
        var evidence := if node.avoidanceEvaluatorName.Some?
          then FirstNamed(evaluators, node.avoidanceEvaluatorName.value) else None;
        if evidence.Some? && evidence.value.status.Passed? then None
        else Some(Verdicts.Outcome(node.id,
          if evidence.Some? && evidence.value.status.Errored? then Verdicts.OutcomeError else Verdicts.OutcomeFailed,
          0.0, [], []))
      else Some(Verdicts.Outcome(node.id, OutcomeStatusOf(s.status),
        if s.status.Passed? then s.score else 0.0,
        RevisedNodes(g.edges, node.id, evaluators), s.recoveredFaultIds))
  }

  function ScenarioOutcomes(g: Graphs.Graph, nodes: seq<Graphs.Node>, sessions: seq<Session>): seq<Verdicts.Outcome> {
    if nodes == [] then []
    else
      var outcome := OutcomeOfNode(g, sessions, nodes[0]);
      (if outcome.Some? then [outcome.value] else []) + ScenarioOutcomes(g, nodes[1..], sessions)
  }

  // Graph components ---------------------------------------------------------

  /** The coverage selected for a task: that of its last covered session. */
  function SelectedCoverage(m: Matrix, sessions: seq<Session>, taskSlug: string): (found: Option<Coverage>)
    ensures found.Some? ==> found.value in m.coverage
  {
    if sessions == [] then None
    else
      var last := sessions[|sessions| - 1];
      if last.taskSlug == taskSlug && MatchingCoverage(m, last).Some? then MatchingCoverage(m, last)
      else SelectedCoverage(m, sessions[..|sessions| - 1], taskSlug)
  }

  /** `new Map(results.map(...)).get(id)`: the last result with that id. */
  function PartById(parts: seq<Verdicts.PartResult>, id: string): (found: Option<Verdicts.PartResult>)
    ensures found.Some? ==> found.value in parts && found.value.id == id
  {
    if parts == [] then None
    else if parts[|parts| - 1].id == id then Some(parts[|parts| - 1])
    else PartById(parts[..|parts| - 1], id)
  }

  function PartComponent(m: Matrix, g: Graphs.Graph, sessions: seq<Session>, parts: seq<Verdicts.PartResult>,
                         prefix: string, d: Dimension, id: string, nodeId: string): Option<Component>
  {
    var node := Graphs.NodeById(g.nodes, nodeId);
    var coverage := if node.Some? then SelectedCoverage(m, sessions, node.value.taskSlug) else None;
    var result := PartById(parts, id);
    if node.None? || coverage.None? || d !in coverage.value.dimensionIds || result.None? then None
    else Some(Component(prefix + id, node.value.capabilityIds, d,
      result.value.status, result.value.score, result.value.weight, result.value.required))
  }

  function DependencyComponent(m: Matrix, g: Graphs.Graph, sessions: seq<Session>, e: Verdicts.Evaluation,
                               edge: Graphs.Edge): Option<Component>
  {
    PartComponent(m, g, sessions, e.dependencies, "dependency:", DependencyConsistency, edge.id, edge.toNodeId)
  }

  function RecoveryComponent(m: Matrix, g: Graphs.Graph, sessions: seq<Session>, e: Verdicts.Evaluation,
                             fault: Graphs.Fault): Option<Component>
  {
    PartComponent(m, g, sessions, e.recoveries, "recovery:", RecoverySafety, fault.id, fault.nodeId)
  }

  function DependencyComponents(m: Matrix, g: Graphs.Graph, sessions: seq<Session>, e: Verdicts.Evaluation,
                                edges: seq<Graphs.Edge>): seq<Component>
  {
    if edges == [] then []
    else
      DependencyComponents(m, g, sessions, e, edges[..|edges| - 1])
      + Listed(DependencyComponent(m, g, sessions, e, edges[|edges| - 1]))
  }

  function RecoveryComponents(m: Matrix, g: Graphs.Graph, sessions: seq<Session>, e: Verdicts.Evaluation,
                              faults: seq<Graphs.Fault>): seq<Component>
  {
    if faults == [] then []
    else
      RecoveryComponents(m, g, sessions, e, faults[..|faults| - 1])
      + Listed(RecoveryComponent(m, g, sessions, e, faults[|faults| - 1]))
  }

  function GraphComponents(m: Matrix, g: Graphs.Graph, sessions: seq<Session>, e: Verdicts.Evaluation): seq<Component> {
    DependencyComponents(m, g, sessions, e, g.edges) + RecoveryComponents(m, g, sessions, e, g.faultSchedule)
  }

  method BuildDependencyComponents(m: Matrix, g: Graphs.Graph, sessions: seq<Session>, e: Verdicts.Evaluation)
    returns (components: seq<Component>)
    ensures components == DependencyComponents(m, g, sessions, e, g.edges)
  {
    components := [];
    for i := 0 to |g.edges|
      invariant components == DependencyComponents(m, g, sessions, e, g.edges[..i])
    {
      assert g.edges[..i + 1][..i] == g.edges[..i];
      var component := DependencyComponent(m, g, sessions, e, g.edges[i]);
      if component.Some? {
        components := components + [component.value];
      }
    }
    assert g.edges[..|g.edges|] == g.edges;
  }

  method BuildRecoveryComponents(m: Matrix, g: Graphs.Graph, sessions: seq<Session>, e: Verdicts.Evaluation)
    returns (components: seq<Component>)
    ensures components == RecoveryComponents(m, g, sessions, e, g.faultSchedule)
  {
    components := [];
    for i := 0 to |g.faultSchedule|
      invariant components == RecoveryComponents(m, g, sessions, e, g.faultSchedule[..i])
    {
      assert g.faultSchedule[..i + 1][..i] == g.faultSchedule[..i];
      var component := RecoveryComponent(m, g, sessions, e, g.faultSchedule[i]);
      if component.Some? {
        components := components + [component.value];
      }
    }
    assert g.faultSchedule[..|g.faultSchedule|] == g.faultSchedule;
  }

  method BuildGraphComponents(m: Matrix, g: Graphs.Graph, sessions: seq<Session>, e: Verdicts.Evaluation)
    returns (components: seq<Component>)
    ensures components == GraphComponents(m, g, sessions, e)
  {
    components := BuildDependencyComponents(m, g, sessions, e);
    var recoveries := BuildRecoveryComponents(m, g, sessions, e);
    components := components + recoveries;
  }

  // The whole evaluation -----------------------------------------------------

  datatype AttemptEvaluation = AttemptEvaluation(
    capabilities: Breakdown,
    scenarioGraph: Option<Verdicts.PublicEvaluation>)

  /** What `buildCapabilityAttemptEvaluation` returns or throws. */
  ghost function Evaluate(matrix: Option<Matrix>, graph: Option<Graphs.Graph>, sessions: seq<Session>)
    : Result<Option<AttemptEvaluation>>
  {
    if matrix.None? then
      if graph.Some? then Throws(Failure.GraphWithoutMatrix) else Ok(None)
    else if !CapabilityMatrix.Accepted(matrix.value) then Throws(Failure.InvalidMatrix)
    else if graph.Some? && !Graphs.Accepted(graph.value) then Throws(Failure.InvalidGraph)
    else
      var m := matrix.value;
      assert forall c :: c in m.coverage ==> CoverageOk(c);
      var components := SessionComponents(m, sessions);
      if graph.None? then Finish(m, components, None)
      else
        var g := graph.value;
        match Verdicts.EvaluateScenarioGraph(g, ScenarioOutcomes(g, g.nodes, sessions))
        case Throws(failure) => Throws(failure)
        case Ok(e) => Finish(m, components + GraphComponents(m, g, sessions, e), Some(Verdicts.Project(e)))
  }

  function Finish(m: Matrix, components: seq<Component>, scenarioGraph: Option<Verdicts.PublicEvaluation>)
    : Result<Option<AttemptEvaluation>>
  {
    match AggregateCapabilityScores(m.capabilities, m.dimensions, components)
    case Throws(failure) => Throws(failure)
    case Ok(breakdown) => Ok(Some(AttemptEvaluation(breakdown, scenarioGraph)))
  }

  method BuildCapabilityAttemptEvaluation(matrix: Option<Matrix>, graph: Option<Graphs.Graph>, sessions: seq<Session>)
    returns (result: Result<Option<AttemptEvaluation>>)
    ensures result == Evaluate(matrix, graph, sessions)
  {
    if matrix.None? {
      return if graph.Some? then Throws(Failure.GraphWithoutMatrix) else Ok(None);
    }
    var m := matrix.value;
    var matrixIssues := CapabilityMatrix.Validate(m);
    if !CapabilityMatrix.FieldsOk(m) || matrixIssues != [] {
      assert matrixIssues != [] ==> CapabilityMatrix.Holds(m, matrixIssues[0]);
      return Throws(Failure.InvalidMatrix);
    }
    assert forall x :: CapabilityMatrix.Holds(m, x) ==> x in matrixIssues;
    if graph.Some? {
      var graphIssues, _ := Graphs.Validate(graph.value);
      if !Graphs.FieldsOk(graph.value) || graphIssues != [] {
        assert graphIssues != [] ==> Graphs.Holds(graph.value, graphIssues[0]);
        return Throws(Failure.InvalidGraph);
      }
      assert forall x :: Graphs.Holds(graph.value, x) ==> x in graphIssues;
    }
    var components := BuildSessionComponents(m, sessions);
    if graph.None? {
      return Finish(m, components, None);
    }
    var g := graph.value;
    var evaluated := Verdicts.EvaluateScenarioGraph(g, ScenarioOutcomes(g, g.nodes, sessions));
    match evaluated {
      case Throws(failure) => return Throws(failure);
      case Ok(e) =>
        var graphComponents := BuildGraphComponents(m, g, sessions, e);
        return Finish(m, components + graphComponents, Some(Verdicts.Project(e)));
    }
  }
}
