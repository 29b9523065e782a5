/** Evaluation of a scenario graph against node outcomes, and its public
    projection. */
module ScenarioVerdict {
  import opened Collections
  import opened ScenarioGraph
  import opened Scoring
  import Rounding

  datatype OutcomeStatus = OutcomePassed | OutcomeFailed | OutcomeError | OutcomeSkipped

  datatype Outcome = Outcome(
    nodeId: string,
    status: OutcomeStatus,
    score: real,
    revisedNodeIds: seq<string>,
    recoveredFaultIds: seq<string>)

  datatype PartResult = PartResult(id: string, status: Status, score: real, required: bool, weight: real)

  datatype Evaluation = Evaluation(
    status: Status,
    score: real,
    nodes: seq<PartResult>,
    dependencies: seq<PartResult>,
    recoveries: seq<PartResult>)

  /** `new Map(outcomes.map(...)).get(nodeId)`: the last outcome of a node. */
  function OutcomeOf(outcomes: seq<Outcome>, nodeId: string): (found: Option<Outcome>)
    ensures found.Some? ==> found.value in outcomes && found.value.nodeId == nodeId
    ensures found.None? ==> forall o :: o in outcomes ==> o.nodeId != nodeId
  {
    if outcomes == [] then None
    else if outcomes[|outcomes| - 1].nodeId == nodeId then Some(outcomes[|outcomes| - 1])
    else OutcomeOf(outcomes[..|outcomes| - 1], nodeId)
  }

  function NodeResult(node: Node, outcomes: seq<Outcome>): PartResult {
    var outcome := OutcomeOf(outcomes, node.id);
    if node.kind.Distractor? then
      var ignored := outcome.None? || outcome.value.status.OutcomeSkipped?;
      PartResult(node.id, if ignored then Passed else Failed, if ignored then 1.0 else 0.0, true, node.weight)
    else
      PartResult(
        node.id,
        if outcome.None? then Failed
        else if outcome.value.status.OutcomeError? then Errored
        else if outcome.value.status.OutcomePassed? then Passed
        else Failed,
        if outcome.Some? && outcome.value.status.OutcomePassed? then outcome.value.score else 0.0,
        true,
        node.weight)
  }

  function ResultOfNode(g: Graph, outcomes: seq<Outcome>, id: string): Option<PartResult> {
    var node := NodeById(g.nodes, id);
    if node.Some? then Some(NodeResult(node.value, outcomes)) else None
  }

  predicate HasStatus(result: Option<PartResult>, status: Status) {
    result.Some? && result.value.status == status
  }

  function DependencyResult(g: Graph, outcomes: seq<Outcome>, edge: Edge): PartResult {
    var source := ResultOfNode(g, outcomes, edge.fromNodeId);
    var target := ResultOfNode(g, outcomes, edge.toNodeId);
    var targetOutcome := OutcomeOf(outcomes, edge.toNodeId);
    var endpointsPassed := HasStatus(source, Passed) && HasStatus(target, Passed);
    var revisionRecorded := !edge.relation.Revises?
      || (targetOutcome.Some? && edge.fromNodeId in targetOutcome.value.revisedNodeIds);
    var passed := endpointsPassed && revisionRecorded;
    var hasError := HasStatus(source, Errored) || HasStatus(target, Errored);
    PartResult(
      edge.id,
      if hasError then Errored else if passed then Passed else Failed,
      if passed then 1.0 else 0.0,
      edge.required,
      edge.weight)
  }

  function RecoveryResult(outcomes: seq<Outcome>, fault: Fault): PartResult {
    var outcome := OutcomeOf(outcomes, fault.nodeId);
    var recovered := outcome.Some? && fault.id in outcome.value.recoveredFaultIds;
    PartResult(
      fault.id,
      if outcome.Some? && outcome.value.status.OutcomeError? then Errored else if recovered then Passed else Failed,
      if recovered then 1.0 else 0.0,
      fault.requiredRecovery,
      fault.weight)
  }

  function RequiredPart(): PartResult -> bool {
    (r: PartResult) => r.required
  }

  function PartStatuses(parts: seq<PartResult>): seq<Status> {
    seq(|parts|, i requires 0 <= i < |parts| => parts[i].status)
  }

  function PartWeights(parts: seq<PartResult>): seq<Weighted> {
    seq(|parts|, i requires 0 <= i < |parts| => Weighted(parts[i].score, parts[i].weight))
  }

  function NodeResults(g: Graph, outcomes: seq<Outcome>): seq<PartResult> {
    seq(|g.nodes|, i requires 0 <= i < |g.nodes| => NodeResult(g.nodes[i], outcomes))
  }

  function DependencyResults(g: Graph, outcomes: seq<Outcome>): seq<PartResult> {
    seq(|g.edges|, i requires 0 <= i < |g.edges| => DependencyResult(g, outcomes, g.edges[i]))
  }

  function RecoveryResults(g: Graph, outcomes: seq<Outcome>): seq<PartResult> {
    seq(|g.faultSchedule|, i requires 0 <= i < |g.faultSchedule| => RecoveryResult(outcomes, g.faultSchedule[i]))
  }

  function EvaluationOf(g: Graph, outcomes: seq<Outcome>): Evaluation {
    var nodes := NodeResults(g, outcomes);
    var dependencies := DependencyResults(g, outcomes);
    var recoveries := RecoveryResults(g, outcomes);
    var parts := nodes + dependencies + recoveries;
    Evaluation(
      Verdict(PartStatuses(Filter(RequiredPart(), parts)), true),
      Rounding.Rounded(Mean(PartWeights(parts))),
      nodes,
      dependencies,
      recoveries)
  }

  predicate OutcomeOk(o: Outcome) {
    o.nodeId != "" && InUnit(o.score)
  }

  predicate PartsOk(parts: seq<PartResult>) {
    forall i :: 0 <= i < |parts| ==> InUnit(parts[i].score) && parts[i].weight >= 0.0
  }

  function OutcomeNodes(outcomes: seq<Outcome>): seq<string> {
    seq(|outcomes|, i requires 0 <= i < |outcomes| => outcomes[i].nodeId)
  }

  /** The narrower graph contract that the scoring package re-parses. */
  predicate InputOk(g: Graph) {
    && g.nodes != []
    && (forall i :: 0 <= i < |g.nodes| ==>
      g.nodes[i].id != "" && g.nodes[i].taskSlug != "" && NonEmptyNames(g.nodes[i].capabilityIds) && g.nodes[i].weight >= 0.0)
    && (forall i :: 0 <= i < |g.edges| ==>
      g.edges[i].id != "" && g.edges[i].fromNodeId != "" && g.edges[i].toNodeId != "" && g.edges[i].weight >= 0.0)
    && (forall i :: 0 <= i < |g.faultSchedule| ==> FaultOk(g.faultSchedule[i]))
  }

  function EvaluateScenarioGraph(g: Graph, outcomes: seq<Outcome>): Result<Evaluation> {
    if !InputOk(g) then Throws(Failure.InvalidGraph)
    else if exists i :: 0 <= i < |outcomes| && !OutcomeOk(outcomes[i]) then Throws(Failure.InvalidOutcome)
    else if |Elements(OutcomeNodes(outcomes))| != |outcomes| then Throws(Failure.DuplicateOutcome)
    else if exists i :: 0 <= i < |outcomes| && outcomes[i].nodeId !in NodeIds(g) then
      Throws(Failure.OutcomeOutsideGraph)
    else
      var e := EvaluationOf(g, outcomes);
      if InUnit(e.score) && PartsOk(e.nodes) && PartsOk(e.dependencies) && PartsOk(e.recoveries) then Ok(e)
      else Throws(Failure.InvalidResult)
  }

  // The verdict ------------------------------------------------------------

  ghost predicate NodeSatisfied(node: Node, outcomes: seq<Outcome>) {
    var outcome := OutcomeOf(outcomes, node.id);
    if node.kind.Distractor? then outcome.None? || outcome.value.status.OutcomeSkipped?
    else outcome.Some? && outcome.value.status.OutcomePassed?
  }

  ghost predicate RevisionRecorded(edge: Edge, outcomes: seq<Outcome>) {
    var target := OutcomeOf(outcomes, edge.toNodeId);
    target.Some? && edge.fromNodeId in target.value.revisedNodeIds
  }

  ghost predicate FaultRecovered(fault: Fault, outcomes: seq<Outcome>) {
    var outcome := OutcomeOf(outcomes, fault.nodeId);
    outcome.Some? && !outcome.value.status.OutcomeError? && fault.id in outcome.value.recoveredFaultIds
  }

  /** What a scenario demands: no `requires` or `informs` edge appears here. */
  ghost predicate ScenarioSatisfied(g: Graph, outcomes: seq<Outcome>) {
    && (forall i :: 0 <= i < |g.nodes| ==> NodeSatisfied(g.nodes[i], outcomes))
    && (forall i :: 0 <= i < |g.edges| ==>
      g.edges[i].required && g.edges[i].relation.Revises? ==> RevisionRecorded(g.edges[i], outcomes))
    && (forall i :: 0 <= i < |g.faultSchedule| ==>
      g.faultSchedule[i].requiredRecovery ==> FaultRecovered(g.faultSchedule[i], outcomes))
  }

  ghost predicate OutcomeErrored(outcomes: seq<Outcome>, nodeId: string) {
    var outcome := OutcomeOf(outcomes, nodeId);
    outcome.Some? && outcome.value.status.OutcomeError?
  }

  /** What makes a scenario an error rather than a failure. */
  ghost predicate ScenarioErrored(g: Graph, outcomes: seq<Outcome>) {
    || (exists i :: 0 <= i < |g.nodes| && g.nodes[i].kind.Required? && OutcomeErrored(outcomes, g.nodes[i].id))
    || (exists i :: 0 <= i < |g.faultSchedule| && g.faultSchedule[i].requiredRecovery
         && OutcomeErrored(outcomes, g.faultSchedule[i].nodeId))
  }

  ghost predicate EndpointsKnown(g: Graph) {
    forall i :: 0 <= i < |g.edges| ==>
      g.edges[i].fromNodeId in NodeIds(g) && g.edges[i].toNodeId in NodeIds(g)
  }

  ghost predicate RequiredStatusAmong(parts: seq<PartResult>, status: Status) {
    exists i :: 0 <= i < |parts| && parts[i].required && parts[i].status == status
  }

  ghost predicate AllRequiredPassed(parts: seq<PartResult>) {
    forall i :: 0 <= i < |parts| && parts[i].required ==> parts[i].status == Passed
  }

  /** The filtered list has an error (or is all passed) as its members say. */
  lemma VerdictOfParts(parts: seq<PartResult>)
    ensures var v := Verdict(PartStatuses(Filter(RequiredPart(), parts)), true);
      && (v == Errored <==> RequiredStatusAmong(parts, Errored))
      && (v == Passed <==> AllRequiredPassed(parts))
  {
    var kept := Filter(RequiredPart(), parts);
    var statuses := PartStatuses(kept);
    FilterMembers(RequiredPart(), parts);
    if AnyError(statuses) {
      var i :| 0 <= i < |statuses| && statuses[i] == Errored;
      assert kept[i] in kept;
    }
    if RequiredStatusAmong(parts, Errored) {
      var i :| 0 <= i < |parts| && parts[i].required && parts[i].status == Errored;
      assert parts[i] in kept;
      var k :| 0 <= k < |kept| && kept[k] == parts[i];
      assert statuses[k] == Errored;
    }
    if AllPassed(statuses) {
      forall i | 0 <= i < |parts| && parts[i].required
        ensures parts[i].status == Passed
      {
        assert parts[i] in kept;
        var k :| 0 <= k < |kept| && kept[k] == parts[i];
        assert statuses[k] == Passed;
      }
    } else {
      var k :| 0 <= k < |statuses| && statuses[k] != Passed;
      assert kept[k] in kept;
    }
  }

  lemma KnownNodeResult(g: Graph, outcomes: seq<Outcome>, id: string)
    requires id in NodeIds(g)
    ensures ResultOfNode(g, outcomes, id).Some?
    ensures ResultOfNode(g, outcomes, id).value in NodeResults(g, outcomes)
  {
    var k :| 0 <= k < |g.nodes| && NodeIds(g)[k] == id;
    assert g.nodes[k].id == id;
    var node := NodeById(g.nodes, id).value;
    var j :| 0 <= j < |g.nodes| && g.nodes[j] == node;
    assert NodeResults(g, outcomes)[j] == NodeResult(node, outcomes);
  }

  lemma NodesDecide(g: Graph, outcomes: seq<Outcome>)
    ensures forall i :: 0 <= i < |g.nodes| ==>
      (NodeResults(g, outcomes)[i].status == Passed <==> NodeSatisfied(g.nodes[i], outcomes))
    ensures forall i :: 0 <= i < |g.nodes| ==>
      (NodeResults(g, outcomes)[i].status == Errored <==>
        g.nodes[i].kind.Required? && OutcomeErrored(outcomes, g.nodes[i].id))
  {
  }

  /** With all nodes satisfied an edge can only fail for a missing revision. */
  lemma EdgeDecides(g: Graph, outcomes: seq<Outcome>, edge: Edge)
    requires edge.fromNodeId in NodeIds(g) && edge.toNodeId in NodeIds(g)
    requires forall i :: 0 <= i < |g.nodes| ==> NodeSatisfied(g.nodes[i], outcomes)
    ensures DependencyResult(g, outcomes, edge).status == Passed <==>
      (edge.relation.Revises? ==> RevisionRecorded(edge, outcomes))
  {
    NodesDecide(g, outcomes);
    KnownNodeResult(g, outcomes, edge.fromNodeId);
    KnownNodeResult(g, outcomes, edge.toNodeId);
  }

  lemma EdgeErrorComesFromNode(g: Graph, outcomes: seq<Outcome>, edge: Edge)
    requires DependencyResult(g, outcomes, edge).status == Errored
    ensures RequiredStatusAmong(NodeResults(g, outcomes), Errored)
  {
    var source := ResultOfNode(g, outcomes, edge.fromNodeId);
    var id := if HasStatus(source, Errored) then edge.fromNodeId else edge.toNodeId;
    var node := NodeById(g.nodes, id).value;
    var j :| 0 <= j < |g.nodes| && g.nodes[j] == node;
    assert NodeResults(g, outcomes)[j].status == Errored;
  }

  /** The evaluator's own schema admits edges to unknown nodes; such an edge can
      never pass. */
  lemma UnknownEndpointFails(g: Graph, outcomes: seq<Outcome>, edge: Edge)
    requires edge.fromNodeId !in NodeIds(g) || edge.toNodeId !in NodeIds(g)
    ensures DependencyResult(g, outcomes, edge).status != Passed
  {
    assert forall i :: 0 <= i < |g.nodes| ==> NodeIds(g)[i] == g.nodes[i].id;
  }

  ghost predicate RequiredEndpointsKnown(g: Graph) {
    forall i :: 0 <= i < |g.edges| && g.edges[i].required ==>
      g.edges[i].fromNodeId in NodeIds(g) && g.edges[i].toNodeId in NodeIds(g)
  }

  lemma EdgesPassWhenSatisfied(g: Graph, outcomes: seq<Outcome>)
    requires forall i :: 0 <= i < |g.nodes| ==> NodeSatisfied(g.nodes[i], outcomes)
    ensures AllRequiredPassed(DependencyResults(g, outcomes)) <==>
      && RequiredEndpointsKnown(g)
      && forall i :: 0 <= i < |g.edges| ==>
        g.edges[i].required && g.edges[i].relation.Revises? ==> RevisionRecorded(g.edges[i], outcomes)
  {
    var edges := DependencyResults(g, outcomes);
    forall i | 0 <= i < |g.edges|
      ensures edges[i].status == Passed <==>
        && g.edges[i].fromNodeId in NodeIds(g) && g.edges[i].toNodeId in NodeIds(g)
        && (g.edges[i].relation.Revises? ==> RevisionRecorded(g.edges[i], outcomes))
    {
      if g.edges[i].fromNodeId in NodeIds(g) && g.edges[i].toNodeId in NodeIds(g) {
        EdgeDecides(g, outcomes, g.edges[i]);
      } else {
        UnknownEndpointFails(g, outcomes, g.edges[i]);
      }
    }
  }

  lemma PartsPassWhenSatisfied(g: Graph, outcomes: seq<Outcome>)
    ensures ScenarioSatisfied(g, outcomes) && RequiredEndpointsKnown(g) <==>
      && AllRequiredPassed(NodeResults(g, outcomes))
      && AllRequiredPassed(DependencyResults(g, outcomes))
      && AllRequiredPassed(RecoveryResults(g, outcomes))
  {
    var faults := RecoveryResults(g, outcomes);
    NodesDecide(g, outcomes);
    assert AllRequiredPassed(NodeResults(g, outcomes)) <==>
      forall i :: 0 <= i < |g.nodes| ==> NodeSatisfied(g.nodes[i], outcomes);
    assert forall i :: 0 <= i < |faults| ==>
      (faults[i].status == Passed <==> FaultRecovered(g.faultSchedule[i], outcomes));
    if forall i :: 0 <= i < |g.nodes| ==> NodeSatisfied(g.nodes[i], outcomes) {
      EdgesPassWhenSatisfied(g, outcomes);
    }
  }

  /** Any graph passes exactly when the scenario is satisfied and no required edge
      leads to an unknown node, and errs exactly when a required node or a required
      fault's node erred. */
  lemma VerdictMeaning(g: Graph, outcomes: seq<Outcome>)
    ensures EvaluationOf(g, outcomes).status == Passed <==> ScenarioSatisfied(g, outcomes) && RequiredEndpointsKnown(g)
    ensures EvaluationOf(g, outcomes).status == Errored <==> ScenarioErrored(g, outcomes)
  {
    var nodes := NodeResults(g, outcomes);
    var edges := DependencyResults(g, outcomes);
    var faults := RecoveryResults(g, outcomes);
    VerdictOfParts(nodes + edges + faults);
    PartsSplit(nodes, edges, faults);
    PartsPassWhenSatisfied(g, outcomes);
    ErrorsMean(g, outcomes);
    if RequiredStatusAmong(edges, Errored) {
      var i :| 0 <= i < |edges| && edges[i].required && edges[i].status == Errored;
      EdgeErrorComesFromNode(g, outcomes, g.edges[i]);
    }
  }

  lemma ErrorsMean(g: Graph, outcomes: seq<Outcome>)
    ensures ScenarioErrored(g, outcomes) <==>
      RequiredStatusAmong(NodeResults(g, outcomes), Errored) || RequiredStatusAmong(RecoveryResults(g, outcomes), Errored)
  {
    NodesDecide(g, outcomes);
    var faults := RecoveryResults(g, outcomes);
    assert forall i :: 0 <= i < |faults| ==>
      (faults[i].status == Errored <==> OutcomeErrored(outcomes, g.faultSchedule[i].nodeId));
  }

  lemma PartsSplit(nodes: seq<PartResult>, edges: seq<PartResult>, faults: seq<PartResult>)
    ensures var parts := nodes + edges + faults;
      && (RequiredStatusAmong(parts, Errored) <==>
           RequiredStatusAmong(nodes, Errored) || RequiredStatusAmong(edges, Errored) || RequiredStatusAmong(faults, Errored))
      && (AllRequiredPassed(parts) <==>
           AllRequiredPassed(nodes) && AllRequiredPassed(edges) && AllRequiredPassed(faults))
  {
    var parts := nodes + edges + faults;
    var n, m := |nodes|, |edges|;
    assert forall i :: 0 <= i < n ==> parts[i] == nodes[i];
    assert forall i :: 0 <= i < m ==> parts[n + i] == edges[i];
    assert forall i :: 0 <= i < |faults| ==> parts[n + m + i] == faults[i];
    assert forall i :: 0 <= i < |parts| ==>
      parts[i] == if i < n then nodes[i] else if i < n + m then edges[i - n] else faults[i - n - m];
  }

  /** Adding, dropping or changing `requires` and `informs` edges changes the status
      only of a satisfied scenario, and only by naming an unknown node in a required
      edge; in an accepted graph that is impossible. */
  lemma OrderingEdgesNeverDecide(g: Graph, edges: seq<Edge>, outcomes: seq<Outcome>)
    requires forall e: Edge :: e.required && e.relation.Revises? ==> (e in g.edges <==> e in edges)
    ensures EvaluationOf(g, outcomes).status == EvaluationOf(g.(edges := edges), outcomes).status <==>
      ((RequiredEndpointsKnown(g) <==> RequiredEndpointsKnown(g.(edges := edges))) || !ScenarioSatisfied(g, outcomes))
    ensures EndpointsKnown(g) ==> RequiredEndpointsKnown(g)
  {
    var h := g.(edges := edges);
    VerdictMeaning(g, outcomes);
    VerdictMeaning(h, outcomes);
    SameDemands(g, h, outcomes);
    SameDemands(h, g, outcomes);
  }

  lemma SameDemands(g: Graph, h: Graph, outcomes: seq<Outcome>)
    requires h == g.(edges := h.edges)
    requires forall e: Edge :: e.required && e.relation.Revises? ==> (e in g.edges <==> e in h.edges)
    ensures ScenarioSatisfied(g, outcomes) ==> ScenarioSatisfied(h, outcomes)
  {
    if ScenarioSatisfied(g, outcomes) {
      forall i | 0 <= i < |h.edges| && h.edges[i].required && h.edges[i].relation.Revises?
        ensures RevisionRecorded(h.edges[i], outcomes)
      {
        assert h.edges[i] in h.edges;
        var k :| 0 <= k < |g.edges| && g.edges[k] == h.edges[i];
      }
    }
  }

  // The public projection ----------------------------------------------------

  datatype Counts = Counts(passed: nat, failed: nat, errored: nat)

  datatype PublicEvaluation = PublicEvaluation(
    status: Status, score: real, nodes: Counts, dependencies: Counts, recoveries: Counts)

  function WithStatus(status: Status): PartResult -> bool {
    (r: PartResult) => r.status == status
  }

  function CountStatuses(parts: seq<PartResult>): Counts {
    Counts(|Filter(WithStatus(Passed), parts)|, |Filter(WithStatus(Failed), parts)|, |Filter(WithStatus(Errored), parts)|)
  }

  function Project(e: Evaluation): PublicEvaluation {
    PublicEvaluation(e.status, e.score, CountStatuses(e.nodes), CountStatuses(e.dependencies), CountStatuses(e.recoveries))
  }

  lemma {:induction false} CountsAddUp(parts: seq<PartResult>)
    ensures var c := CountStatuses(parts); c.passed + c.failed + c.errored == |parts|
  {
    if parts != [] {
      CountsAddUp(parts[1..]);
    }
  }

  /** The published counts account for every node, edge and fault. */
  lemma ProjectionConserves(g: Graph, outcomes: seq<Outcome>)
    ensures var p := Project(EvaluationOf(g, outcomes));
      && p.nodes.passed + p.nodes.failed + p.nodes.errored == |g.nodes|
      && p.dependencies.passed + p.dependencies.failed + p.dependencies.errored == |g.edges|
      && p.recoveries.passed + p.recoveries.failed + p.recoveries.errored == |g.faultSchedule|
  {
    CountsAddUp(NodeResults(g, outcomes));
    CountsAddUp(DependencyResults(g, outcomes));
    CountsAddUp(RecoveryResults(g, outcomes));
  }

  // No throw -----------------------------------------------------------------

  /** An accepted graph and at most one valid outcome per known node cannot make
      the evaluation throw. */
  lemma EvaluationNeverThrows(g: Graph, outcomes: seq<Outcome>)
    requires Accepted(g)
    requires forall i :: 0 <= i < |outcomes| ==> OutcomeOk(outcomes[i]) && outcomes[i].nodeId in NodeIds(g)
    requires Distinct(OutcomeNodes(outcomes))
    ensures EvaluateScenarioGraph(g, outcomes) == Ok(EvaluationOf(g, outcomes))
    ensures EndpointsKnown(g)
  {
    forall i | 0 <= i < |g.edges|
      ensures g.edges[i].fromNodeId in NodeIds(g) && g.edges[i].toNodeId in NodeIds(g)
    {
      assert !Holds(g, UnknownEndpoint(i));
    }
    SetSizeDecidesDistinct(OutcomeNodes(outcomes));
    assert forall i :: 0 <= i < |g.nodes| ==> NodeOk(g.nodes[i]);
    assert forall i :: 0 <= i < |g.edges| ==> EdgeOk(g.edges[i]);
    PartsStayInUnit(g, outcomes);
  }

  lemma PartsStayInUnit(g: Graph, outcomes: seq<Outcome>)
    requires InputOk(g) && forall i :: 0 <= i < |outcomes| ==> OutcomeOk(outcomes[i])
    ensures var e := EvaluationOf(g, outcomes);
      InUnit(e.score) && PartsOk(e.nodes) && PartsOk(e.dependencies) && PartsOk(e.recoveries)
  {
    var (nodes, edges, faults) :=
      (NodeResults(g, outcomes), DependencyResults(g, outcomes), RecoveryResults(g, outcomes));
    assert forall o :: o in outcomes ==> OutcomeOk(o);
    assert PartsOk(nodes) && PartsOk(edges) && PartsOk(faults);
    assert PartsOk(nodes + edges + faults);
    MeanInUnit(PartWeights(nodes + edges + faults));
    Rounding.RoundedKeepsUnitInterval(Mean(PartWeights(nodes + edges + faults)));
  }
}
