/** What the parts of a scenario evaluation and its public projection say: every
    status, score and count in terms of the graph and the outcomes. */
module ScenarioParts {
  import opened Collections
  import opened Rounding
  import opened ScenarioGraph
  import opened ScenarioVerdict
  import opened Scoring

  // Nodes ----------------------------------------------------------------------------

  /** A satisfied distractor scores one, a satisfied required node what its outcome
      says, and any other node nothing. */
  ghost function NodeScore(n: Node, outcomes: seq<Outcome>): real {
    if !NodeSatisfied(n, outcomes) then 0.0
    else if n.kind.Distractor? then 1.0
    else OutcomeOf(outcomes, n.id).value.score
  }

  ghost predicate NodeErred(n: Node, outcomes: seq<Outcome>) {
    n.kind.Required? && OutcomeErrored(outcomes, n.id)
  }

  ghost predicate Tells(r: PartResult, passed: bool, erred: bool) {
    && (r.status == Passed <==> passed)
    && (r.status == Errored <==> erred)
  }

  ghost predicate IsNodePart(r: PartResult, n: Node, outcomes: seq<Outcome>) {
    && Tells(r, NodeSatisfied(n, outcomes), NodeErred(n, outcomes))
    && r.id == n.id && r.score == NodeScore(n, outcomes) && r.required && r.weight == n.weight
  }

  lemma NodeMeaning(n: Node, outcomes: seq<Outcome>)
    ensures IsNodePart(NodeResult(n, outcomes), n, outcomes)
  {
  }

  // Edges ----------------------------------------------------------------------------

  ghost predicate KnownSatisfied(g: Graph, outcomes: seq<Outcome>, id: string) {
    NodeById(g.nodes, id).Some? && NodeSatisfied(NodeById(g.nodes, id).value, outcomes)
  }

  ghost predicate KnownErred(g: Graph, outcomes: seq<Outcome>, id: string) {
    NodeById(g.nodes, id).Some? && NodeErred(NodeById(g.nodes, id).value, outcomes)
  }

  ghost predicate EdgeSatisfied(g: Graph, e: Edge, outcomes: seq<Outcome>) {
    && KnownSatisfied(g, outcomes, e.fromNodeId) && KnownSatisfied(g, outcomes, e.toNodeId)
    && (e.relation.Revises? ==> RevisionRecorded(e, outcomes))
  }

  ghost predicate EdgeErred(g: Graph, e: Edge, outcomes: seq<Outcome>) {
    KnownErred(g, outcomes, e.fromNodeId) || KnownErred(g, outcomes, e.toNodeId)
  }

  ghost predicate IsEdgePart(r: PartResult, g: Graph, e: Edge, outcomes: seq<Outcome>) {
    && Tells(r, EdgeSatisfied(g, e, outcomes), EdgeErred(g, e, outcomes))
    && r.id == e.id && r.required == e.required && r.weight == e.weight
    && r.score == if EdgeSatisfied(g, e, outcomes) then 1.0 else 0.0
  }

  lemma EdgeMeaning(g: Graph, e: Edge, outcomes: seq<Outcome>)
    ensures IsEdgePart(DependencyResult(g, outcomes, e), g, e, outcomes)
  {
    EndpointMeaning(g, outcomes, e.fromNodeId);
    EndpointMeaning(g, outcomes, e.toNodeId);
  }

  lemma EndpointMeaning(g: Graph, outcomes: seq<Outcome>, id: string)
    ensures HasStatus(ResultOfNode(g, outcomes, id), Passed) <==> KnownSatisfied(g, outcomes, id)
    ensures HasStatus(ResultOfNode(g, outcomes, id), Errored) <==> KnownErred(g, outcomes, id)
    ensures KnownSatisfied(g, outcomes, id) ==> !KnownErred(g, outcomes, id)
  {
    var node := NodeById(g.nodes, id);
    if node.Some? {
      NodeMeaning(node.value, outcomes);
    }
  }

  // Faults ---------------------------------------------------------------------------

  /** The fault is listed as recovered, whether or not its node erred. */
  ghost predicate FaultListed(f: Fault, outcomes: seq<Outcome>) {
    OutcomeOf(outcomes, f.nodeId).Some? && f.id in OutcomeOf(outcomes, f.nodeId).value.recoveredFaultIds
  }

  ghost predicate IsFaultPart(r: PartResult, f: Fault, outcomes: seq<Outcome>) {
    && Tells(r, FaultRecovered(f, outcomes), OutcomeErrored(outcomes, f.nodeId))
    && r.id == f.id && r.required == f.requiredRecovery && r.weight == f.weight
    && r.score == if FaultListed(f, outcomes) then 1.0 else 0.0
  }

  lemma FaultMeaning(f: Fault, outcomes: seq<Outcome>)
    ensures IsFaultPart(RecoveryResult(outcomes, f), f, outcomes)
  {
  }

  // The evaluation ---------------------------------------------------------------------

  ghost function NodeShares(g: Graph, outcomes: seq<Outcome>): seq<Weighted> {
    seq(|g.nodes|, i requires 0 <= i < |g.nodes| => Weighted(NodeScore(g.nodes[i], outcomes), g.nodes[i].weight))
  }

  ghost function EdgeShares(g: Graph, outcomes: seq<Outcome>): seq<Weighted> {
    seq(|g.edges|, i requires 0 <= i < |g.edges| =>
      Weighted(if EdgeSatisfied(g, g.edges[i], outcomes) then 1.0 else 0.0, g.edges[i].weight))
  }

  ghost function FaultShares(g: Graph, outcomes: seq<Outcome>): seq<Weighted> {
    seq(|g.faultSchedule|, i requires 0 <= i < |g.faultSchedule| =>
      Weighted(if FaultListed(g.faultSchedule[i], outcomes) then 1.0 else 0.0, g.faultSchedule[i].weight))
  }

  ghost predicate NodesTold(g: Graph, outcomes: seq<Outcome>, parts: seq<PartResult>) {
    && |parts| == |g.nodes|
    && forall i :: 0 <= i < |g.nodes| ==> IsNodePart(parts[i], g.nodes[i], outcomes)
  }

  ghost predicate EdgesTold(g: Graph, outcomes: seq<Outcome>, parts: seq<PartResult>) {
    && |parts| == |g.edges|
    && forall i :: 0 <= i < |g.edges| ==> IsEdgePart(parts[i], g, g.edges[i], outcomes)
  }

  ghost predicate FaultsTold(g: Graph, outcomes: seq<Outcome>, parts: seq<PartResult>) {
    && |parts| == |g.faultSchedule|
    && forall i :: 0 <= i < |g.faultSchedule| ==> IsFaultPart(parts[i], g.faultSchedule[i], outcomes)
  }

  lemma PartsMeaning(g: Graph, outcomes: seq<Outcome>)
    ensures NodesTold(g, outcomes, NodeResults(g, outcomes))
    ensures EdgesTold(g, outcomes, DependencyResults(g, outcomes))
    ensures FaultsTold(g, outcomes, RecoveryResults(g, outcomes))
  {
    forall i | 0 <= i < |g.nodes|
      ensures IsNodePart(NodeResults(g, outcomes)[i], g.nodes[i], outcomes)
    {
      NodeMeaning(g.nodes[i], outcomes);
    }
    forall i | 0 <= i < |g.edges|
      ensures IsEdgePart(DependencyResults(g, outcomes)[i], g, g.edges[i], outcomes)
    {
      EdgeMeaning(g, g.edges[i], outcomes);
    }
    forall i | 0 <= i < |g.faultSchedule|
      ensures IsFaultPart(RecoveryResults(g, outcomes)[i], g.faultSchedule[i], outcomes)
    {
      FaultMeaning(g.faultSchedule[i], outcomes);
    }
  }

  lemma WeightsConcat(a: seq<PartResult>, b: seq<PartResult>)
    ensures PartWeights(a + b) == PartWeights(a) + PartWeights(b)
  {
  }

  lemma ScoreOfParts(g: Graph, outcomes: seq<Outcome>)
    ensures PartWeights(NodeResults(g, outcomes) + DependencyResults(g, outcomes) + RecoveryResults(g, outcomes))
      == NodeShares(g, outcomes) + EdgeShares(g, outcomes) + FaultShares(g, outcomes)
  {
    PartsMeaning(g, outcomes);
    WeightsConcat(NodeResults(g, outcomes), DependencyResults(g, outcomes));
    WeightsConcat(NodeResults(g, outcomes) + DependencyResults(g, outcomes), RecoveryResults(g, outcomes));
    assert PartWeights(NodeResults(g, outcomes)) == NodeShares(g, outcomes);
    assert PartWeights(DependencyResults(g, outcomes)) == EdgeShares(g, outcomes);
    assert PartWeights(RecoveryResults(g, outcomes)) == FaultShares(g, outcomes);
  }

  /** Everything an evaluation says; its status is `ScenarioVerdict.VerdictMeaning`. */
  ghost predicate IsEvaluation(g: Graph, outcomes: seq<Outcome>, e: Evaluation) {
    && NodesTold(g, outcomes, e.nodes) && EdgesTold(g, outcomes, e.dependencies) && FaultsTold(g, outcomes, e.recoveries)
    && (e.status == Passed <==> ScenarioSatisfied(g, outcomes) && RequiredEndpointsKnown(g))
    && (e.status == Errored <==> ScenarioErrored(g, outcomes))
    && e.score == Rounded(Mean(NodeShares(g, outcomes) + EdgeShares(g, outcomes) + FaultShares(g, outcomes)))
  }

  lemma EvaluationMeaning(g: Graph, outcomes: seq<Outcome>)
    ensures IsEvaluation(g, outcomes, EvaluationOf(g, outcomes))
  {
    PartsMeaning(g, outcomes);
    ScoreOfParts(g, outcomes);
    VerdictMeaning(g, outcomes);
  }

  ghost predicate InputsFit(g: Graph, outcomes: seq<Outcome>) {
    InputOk(g) && !SomeOutcomeInvalid(outcomes) && !SomeNodeTwice(outcomes) && !SomeNodeUnknown(g, outcomes)
  }

  /** The first reason to refuse, in the order of the checks. */
  ghost function FirstRefusal(g: Graph, outcomes: seq<Outcome>): Failure {
    if !InputOk(g) then Failure.InvalidGraph
    else if SomeOutcomeInvalid(outcomes) then Failure.InvalidOutcome
    else if SomeNodeTwice(outcomes) then Failure.DuplicateOutcome
    else Failure.OutcomeOutsideGraph
  }

  lemma FittingInputsAreEvaluated(g: Graph, outcomes: seq<Outcome>)
    requires InputsFit(g, outcomes)
    ensures EvaluateScenarioGraph(g, outcomes) == Ok(EvaluationOf(g, outcomes))
  {
    ChecksMeaning(g, outcomes);
    PartsStayInUnit(g, outcomes);
  }

  lemma OtherInputsAreRefused(g: Graph, outcomes: seq<Outcome>)
    requires !InputsFit(g, outcomes)
    ensures EvaluateScenarioGraph(g, outcomes) == Throws(FirstRefusal(g, outcomes))
  {
    ChecksMeaning(g, outcomes);
  }

  /** What `evaluateScenarioGraph` throws, in the order of its checks, and what it
      returns when it does not. */
  lemma EvaluatorMeaning(g: Graph, outcomes: seq<Outcome>)
    ensures match EvaluateScenarioGraph(g, outcomes)
      case Ok(e) => InputsFit(g, outcomes) && IsEvaluation(g, outcomes, e)
      case Throws(f) => !InputsFit(g, outcomes) && f == FirstRefusal(g, outcomes)
  {
    if InputsFit(g, outcomes) {
      FittingInputsAreEvaluated(g, outcomes);
      EvaluationMeaning(g, outcomes);
    } else {
      OtherInputsAreRefused(g, outcomes);
    }
  }

  lemma ChecksMeaning(g: Graph, outcomes: seq<Outcome>)
    ensures (exists i :: 0 <= i < |outcomes| && !OutcomeOk(outcomes[i])) <==> SomeOutcomeInvalid(outcomes)
    ensures |Elements(OutcomeNodes(outcomes))| != |outcomes| <==> SomeNodeTwice(outcomes)
    ensures (exists i :: 0 <= i < |outcomes| && outcomes[i].nodeId !in NodeIds(g)) <==> SomeNodeUnknown(g, outcomes)
  {
    if i :| 0 <= i < |outcomes| && !OutcomeOk(outcomes[i]) {
      assert outcomes[i] in outcomes;
    }
    SetSizeDecidesDistinct(OutcomeNodes(outcomes));
    assert forall i :: 0 <= i < |outcomes| ==> OutcomeNodes(outcomes)[i] == outcomes[i].nodeId;
    assert forall i :: 0 <= i < |g.nodes| ==> NodeIds(g)[i] == g.nodes[i].id;
    if i :| 0 <= i < |outcomes| && outcomes[i].nodeId !in NodeIds(g) {
      assert forall k :: 0 <= k < |g.nodes| ==> g.nodes[k].id != outcomes[i].nodeId;
    }
  }

  ghost predicate SomeOutcomeInvalid(outcomes: seq<Outcome>) {
    exists o :: o in outcomes && (o.nodeId == "" || o.score < 0.0 || o.score > 1.0)
  }

  ghost predicate SomeNodeTwice(outcomes: seq<Outcome>) {
    exists i, j :: 0 <= i < j < |outcomes| && outcomes[i].nodeId == outcomes[j].nodeId
  }

  ghost predicate SomeNodeUnknown(g: Graph, outcomes: seq<Outcome>) {
    exists i :: 0 <= i < |outcomes| && forall k :: 0 <= k < |g.nodes| ==> g.nodes[k].id != outcomes[i].nodeId
  }

  // The projection -----------------------------------------------------------------------

  ghost predicate CountsAre(c: Counts, passed: set<nat>, erred: set<nat>, all: nat) {
    c.passed == |passed| && c.errored == |erred| && c.failed == all - |passed| - |erred|
  }

  ghost function SatisfiedNodes(g: Graph, outcomes: seq<Outcome>): set<nat> {
    set i: nat | i < |g.nodes| && NodeSatisfied(g.nodes[i], outcomes)
  }

  ghost function ErredNodes(g: Graph, outcomes: seq<Outcome>): set<nat> {
    set i: nat | i < |g.nodes| && NodeErred(g.nodes[i], outcomes)
  }

  ghost function SatisfiedEdges(g: Graph, outcomes: seq<Outcome>): set<nat> {
    set i: nat | i < |g.edges| && EdgeSatisfied(g, g.edges[i], outcomes)
  }

  ghost function ErredEdges(g: Graph, outcomes: seq<Outcome>): set<nat> {
    set i: nat | i < |g.edges| && EdgeErred(g, g.edges[i], outcomes)
  }

  ghost function RecoveredFaults(g: Graph, outcomes: seq<Outcome>): set<nat> {
    set i: nat | i < |g.faultSchedule| && FaultRecovered(g.faultSchedule[i], outcomes)
  }

  ghost function ErredFaults(g: Graph, outcomes: seq<Outcome>): set<nat> {
    set i: nat | i < |g.faultSchedule| && OutcomeErrored(outcomes, g.faultSchedule[i].nodeId)
  }

  lemma CountsMeaning(parts: seq<PartResult>)
    ensures CountsAre(CountStatuses(parts), Where(WithStatus(Passed), parts), Where(WithStatus(Errored), parts), |parts|)
    ensures forall i: nat :: i in Where(WithStatus(Passed), parts) <==> i < |parts| && parts[i].status == Passed
    ensures forall i: nat :: i in Where(WithStatus(Errored), parts) <==> i < |parts| && parts[i].status == Errored
  {
    FilterCount(WithStatus(Passed), parts);
    FilterCount(WithStatus(Errored), parts);
    CountsAddUp(parts);
  }

  /** A projection of an evaluation: status and score are kept, the counts are those
      of exactly the satisfied and the erred nodes, edges and faults, and the rest has
      failed. */
  ghost predicate IsProjection(g: Graph, outcomes: seq<Outcome>, e: Evaluation, p: PublicEvaluation) {
    && p.status == e.status && p.score == e.score
    && CountsAre(p.nodes, SatisfiedNodes(g, outcomes), ErredNodes(g, outcomes), |g.nodes|)
    && CountsAre(p.dependencies, SatisfiedEdges(g, outcomes), ErredEdges(g, outcomes), |g.edges|)
    && CountsAre(p.recoveries, RecoveredFaults(g, outcomes), ErredFaults(g, outcomes), |g.faultSchedule|)
  }

  lemma NodeCounts(g: Graph, outcomes: seq<Outcome>, parts: seq<PartResult>)
    requires NodesTold(g, outcomes, parts)
    ensures CountsAre(CountStatuses(parts), SatisfiedNodes(g, outcomes), ErredNodes(g, outcomes), |g.nodes|)
  {
    CountsMeaning(parts);
    assert Where(WithStatus(Passed), parts) == SatisfiedNodes(g, outcomes);
    assert Where(WithStatus(Errored), parts) == ErredNodes(g, outcomes);
  }

  lemma EdgeCounts(g: Graph, outcomes: seq<Outcome>, parts: seq<PartResult>)
    requires EdgesTold(g, outcomes, parts)
    ensures CountsAre(CountStatuses(parts), SatisfiedEdges(g, outcomes), ErredEdges(g, outcomes), |g.edges|)
  {
    CountsMeaning(parts);
    assert forall i :: 0 <= i < |parts| ==> IsEdgePart(parts[i], g, g.edges[i], outcomes);
    assert Where(WithStatus(Passed), parts) == SatisfiedEdges(g, outcomes);
    assert Where(WithStatus(Errored), parts) == ErredEdges(g, outcomes);
  }

  lemma FaultCounts(g: Graph, outcomes: seq<Outcome>, parts: seq<PartResult>)
    requires FaultsTold(g, outcomes, parts)
    ensures CountsAre(CountStatuses(parts), RecoveredFaults(g, outcomes), ErredFaults(g, outcomes), |g.faultSchedule|)
  {
    CountsMeaning(parts);
    assert forall i :: 0 <= i < |parts| ==> IsFaultPart(parts[i], g.faultSchedule[i], outcomes);
    assert Where(WithStatus(Passed), parts) == RecoveredFaults(g, outcomes);
    assert Where(WithStatus(Errored), parts) == ErredFaults(g, outcomes);
  }

  lemma ProjectionMeaning(g: Graph, outcomes: seq<Outcome>)
    ensures IsProjection(g, outcomes, EvaluationOf(g, outcomes), Project(EvaluationOf(g, outcomes)))
  {
    PartsMeaning(g, outcomes);
    NodeCounts(g, outcomes, NodeResults(g, outcomes));
    EdgeCounts(g, outcomes, DependencyResults(g, outcomes));
    FaultCounts(g, outcomes, RecoveryResults(g, outcomes));
  }
}
