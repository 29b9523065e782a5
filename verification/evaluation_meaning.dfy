/** The capability evaluation of an attempt from end to end, for every published
    manifest and every attempt. */
module EvaluationMeaning {
  import opened Collections
  import opened CapabilityAggregation
  import opened CapabilityGuarantees
  import opened ComponentMeaning
  import opened ScoreMeaning
  import opened Scoring
  import CapabilityMatrix
  import Graphs = ScenarioGraph
  import ScenarioParts
  import SuiteManifest
  import Verdicts = ScenarioVerdict

  /** What an attempt is scored by. */
  ghost predicate IsComponent(suite: SuiteManifest.Suite, sessions: seq<AttemptSession>, c: Component)
    requires suite.matrix.Some?
    requires suite.graph.Some? ==> FitsGraph(suite.graph.value, ScenarioOf(suite.graph.value, sessions))
  {
    var m := suite.matrix.value;
    || (exists s :: s in sessions && IsOfSession(m, s, c))
    || (suite.graph.Some?
        && var g := suite.graph.value;
           IsDependency(m, g, sessions, ScenarioOf(g, sessions), c) || IsRecovery(m, g, sessions, ScenarioOf(g, sessions), c))
  }

  predicate FitsGraph(g: Graphs.Graph, e: Verdicts.Evaluation) {
    |e.dependencies| == |g.edges| && |e.recoveries| == |g.faultSchedule|
  }

  lemma AllComponentsMeaning(suite: SuiteManifest.Suite, sessions: seq<AttemptSession>, c: Component)
    requires SuiteManifest.Accepted(suite) && suite.matrix.Some? && CapabilityMatrix.Accepted(suite.matrix.value)
    ensures suite.graph.Some? ==> FitsGraph(suite.graph.value, ScenarioOf(suite.graph.value, sessions))
    ensures c in AllComponents(suite, sessions) <==> IsComponent(suite, sessions, c)
  {
    SessionComponentsMeaning(suite.matrix.value, sessions, c);
    if suite.graph.Some? {
      GraphComponentsMeaning(suite.matrix.value, suite.graph.value, sessions, c);
    }
  }

  lemma AllComponentsDistinct(suite: SuiteManifest.Suite, sessions: seq<AttemptSession>)
    requires SuiteManifest.Accepted(suite) && suite.matrix.Some? && SessionsOk(sessions)
    requires CapabilityMatrix.Accepted(suite.matrix.value)
    ensures Distinct(ComponentIds(AllComponents(suite, sessions)))
  {
    var m := suite.matrix.value;
    AllSessionComponentsDeclared(m, sessions);
    if suite.graph.Some? {
      var g := suite.graph.value;
      NodesOfAcceptedSuiteDeclared(suite);
      ScenarioNeverThrows(g, sessions);
      GraphComponentsDeclared(m, g, sessions, ScenarioOf(g, sessions));
    } else {
      assert AllComponents(suite, sessions) == SessionComponents(m, sessions);
    }
  }

  /** For a published manifest the result sums up exactly the components that
      sessions, coverage and graph call for, each once, and projects the evaluation
      of the graph. */
  lemma AttemptMeaning(suite: SuiteManifest.Suite, sessions: seq<AttemptSession>)
    returns (cs: seq<Component>, r: AttemptEvaluation)
    requires SuiteManifest.Accepted(suite) && suite.matrix.Some? && SessionsOk(sessions)
    ensures Evaluate(suite.matrix, suite.graph, sessions) == Ok(Some(r))
    ensures IsBreakdown(suite.matrix.value.capabilities, suite.matrix.value.dimensions, cs, r.capabilities)
    ensures Distinct(ComponentIds(cs))
    ensures suite.graph.Some? ==> FitsGraph(suite.graph.value, ScenarioOf(suite.graph.value, sessions))
    ensures forall c :: c in cs <==> IsComponent(suite, sessions, c)
    ensures r.scenarioGraph.Some? <==> suite.graph.Some?
    ensures suite.graph.Some? ==>
      var (g, e) := (suite.graph.value, ScenarioOf(suite.graph.value, sessions));
      && ScenarioParts.IsEvaluation(g, ScenarioOutcomes(g, g.nodes, sessions), e)
      && ScenarioParts.IsProjection(g, ScenarioOutcomes(g, g.nodes, sessions), e, r.scenarioGraph.value)
  {
    r := EvaluationOfAttempt(suite, sessions);
    var m := suite.matrix.value;
    cs := AllComponents(suite, sessions);
    BreakdownMeaning(m.capabilities, m.dimensions, cs);
    AllComponentsDistinct(suite, sessions);
    assert suite.graph.Some? ==> FitsGraph(suite.graph.value, ScenarioOf(suite.graph.value, sessions));
    forall c
      ensures c in cs <==> IsComponent(suite, sessions, c)
    {
      AllComponentsMeaning(suite, sessions, c);
    }
    if suite.graph.Some? {
      var g := suite.graph.value;
      ScenarioParts.EvaluationMeaning(g, ScenarioOutcomes(g, g.nodes, sessions));
      ScenarioParts.ProjectionMeaning(g, ScenarioOutcomes(g, g.nodes, sessions));
    }
  }

  /** Metadata is refused exactly for a graph without a matrix, for a matrix or else
      for a graph that the schema does not accept, and gives nothing exactly without
      both. */
  lemma RefusalMeaning(matrix: Option<CapabilityMatrix.Matrix>, graph: Option<Graphs.Graph>, sessions: seq<AttemptSession>)
    requires SessionsOk(sessions)
    ensures var r := Evaluate(matrix, graph, sessions);
      && (r == Throws(Failure.GraphWithoutMatrix) <==> matrix.None? && graph.Some?)
      && (r == Throws(Failure.InvalidMatrix) <==> matrix.Some? && !CapabilityMatrix.Accepted(matrix.value))
      && (r == Throws(Failure.InvalidGraph) <==>
           matrix.Some? && CapabilityMatrix.Accepted(matrix.value) && graph.Some? && !Graphs.Accepted(graph.value))
      && (r == Ok(None) <==> matrix.None? && graph.None?)
  {
    if matrix.Some? && CapabilityMatrix.Accepted(matrix.value) && (graph.Some? ==> Graphs.Accepted(graph.value)) {
      AggregationRefusals(matrix.value, if graph.None? then SessionComponents(matrix.value, sessions) else
        SessionComponents(matrix.value, sessions)
        + GraphComponents(matrix.value, graph.value, sessions, ScenarioOf(graph.value, sessions)));
      if graph.Some? {
        ScenarioNeverThrows(graph.value, sessions);
      }
    }
  }

  lemma AggregationRefusals(m: CapabilityMatrix.Matrix, cs: seq<Component>)
    ensures var r := AggregateCapabilityScores(m.capabilities, m.dimensions, cs);
      r.Throws? ==> r.failure != Failure.GraphWithoutMatrix && r.failure != Failure.InvalidMatrix && r.failure != Failure.InvalidGraph
  {
  }
}
