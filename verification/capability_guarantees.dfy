/** Guarantees of the capability evaluation over whole attempts: it never
    throws for a published manifest, and interaction cost never gates. */
module CapabilityGuarantees {
  import opened Collections
  import opened CapabilityMatrix
  import Graphs = ScenarioGraph
  import Verdicts = ScenarioVerdict
  import opened Scoring
  import opened Rounding
  import opened SuiteManifest
  import opened CapabilityAggregation
  import opened SuiteScore

  type AttemptSession = CapabilityAggregation.Session

  // Component identity -------------------------------------------------------

  datatype Family = FinalStates | Evidence | Costs | Dependencies | Recoveries

  function Prefix(f: Family): string {
    match f
    case FinalStates => "final-state:"
    case Evidence => "evidence:"
    case Costs => "interaction-cost:"
    case Dependencies => "dependency:"
    case Recoveries => "recovery:"
  }

  function Key(f: Family, id: string): string {
    Prefix(f) + id
  }

  /** The five prefixes keep the five families of components apart, whatever
      the session, edge and fault ids contain. */
  lemma KeysIdentify(f: Family, a: string, g: Family, b: string)
    ensures Key(f, a) == Key(g, b) <==> f == g && a == b
  {
    assert Key(f, a)[0] == Prefix(f)[0] && Key(g, b)[0] == Prefix(g)[0];
    if Key(f, a) == Key(g, b) {
      assert f == g;
      assert a == Key(f, a)[|Prefix(f)|..] && b == Key(g, b)[|Prefix(g)|..];
    }
  }

  lemma ConcatDistinct(a: seq<Component>, b: seq<Component>)
    requires Distinct(ComponentIds(a)) && Distinct(ComponentIds(b))
    requires forall x, y :: x in a && y in b ==> x.id != y.id
    ensures Distinct(ComponentIds(a + b))
  {
    var c := a + b;
    assert forall i :: 0 <= i < |a| ==> c[i] == a[i] && ComponentIds(a)[i] == a[i].id;
    assert forall i :: |a| <= i < |c| ==> c[i] == b[i - |a|] && ComponentIds(b)[i - |a|] == b[i - |a|].id;
    assert forall i :: |a| <= i < |c| ==> c[i] in b;
    assert forall i :: 0 <= i < |a| ==> c[i] in a;
  }

  // Well-formed components ---------------------------------------------------

  ghost predicate Declared(m: Matrix, c: Component) {
    && ComponentOk(c)
    && (forall id :: id in c.capabilityIds ==> id in CapabilityIds(m))
    && c.dimensionId in DimensionIds(m)
  }

  ghost predicate SessionOk(s: AttemptSession) {
    InUnit(s.score)
  }

  ghost predicate FromSession(s: AttemptSession, c: Component) {
    c.id == Key(FinalStates, s.id) || c.id == Key(Evidence, s.id) || c.id == Key(Costs, s.id)
  }

  lemma CoverageDeclared(m: Matrix, c: Coverage)
    requires CapabilityMatrix.Accepted(m) && c in m.coverage
    ensures CoverageOk(c)
    ensures forall id :: id in c.capabilityIds ==> id in CapabilityIds(m)
    ensures forall d :: d in c.dimensionIds ==> d in DimensionIds(m)
  {
    var i :| 0 <= i < |m.coverage| && m.coverage[i] == c;
    forall id | id in c.capabilityIds
      ensures id in CapabilityIds(m)
    {
      assert !CapabilityMatrix.Holds(m, UnknownCapability(i, id));
    }
    forall d | d in c.dimensionIds
      ensures d in DimensionIds(m)
    {
      assert !CapabilityMatrix.Holds(m, CapabilityMatrix.UndeclaredDimension(i, d));
    }
  }

  lemma EvidenceScoreInUnit(s: AttemptSession, c: Coverage)
    ensures EvidenceComponent(s, c).Some? ==> InUnit(EvidenceComponent(s, c).value.score)
  {
    var evaluators := Filter(IsEvidence(), ParsedEvaluators(s.evaluators));
    FilterMembers(IsParsed(), s.evaluators);
    FilterMembers(IsEvidence(), ParsedEvaluators(s.evaluators));
    assert forall e :: e in evaluators ==> InUnit(e.score);
    var scores := seq(|evaluators|, i requires 0 <= i < |evaluators| => Weighted(evaluators[i].score, 1.0));
    MeanInUnit(scores);
    RoundedKeepsUnitInterval(Mean(scores));
  }

  lemma CostScoreInUnit(cost: real, budget: Budget)
    requires budget.preferredMaxActions < budget.hardMaxActions
    ensures InUnit(CostScore(cost, budget))
  {
    var preferred, hard := budget.preferredMaxActions as real, budget.hardMaxActions as real;
    if preferred < cost < hard {
      DivideMonotone(0.0, hard - cost, hard - preferred);
      DivideMonotone(hard - cost, hard - preferred, hard - preferred);
    }
  }

  lemma CostFreeDeclared(m: Matrix, s: AttemptSession, c: Coverage)
    requires CapabilityMatrix.Accepted(m) && SessionOk(s) && c in m.coverage
    ensures forall x :: x in CostFreeComponents(s, c) ==>
      Declared(m, x) && (x.id == Key(FinalStates, s.id) || x.id == Key(Evidence, s.id))
    ensures Distinct(ComponentIds(CostFreeComponents(s, c)))
  {
    CoverageDeclared(m, c);
    EvidenceScoreInUnit(s, c);
    KeysIdentify(FinalStates, s.id, Evidence, s.id);
  }

  lemma CostDeclared(m: Matrix, s: AttemptSession, c: Coverage)
    requires CapabilityMatrix.Accepted(m) && c in m.coverage
    ensures CoverageOk(c)
    ensures InteractionCostComponent(s, c).Some? ==>
      Declared(m, InteractionCostComponent(s, c).value) && InteractionCostComponent(s, c).value.id == Key(Costs, s.id)
  {
    CoverageDeclared(m, c);
    if InteractionCostComponent(s, c).Some? {
      CostScoreInUnit(s.cost.actions, c.budget.value);
      RoundedKeepsUnitInterval(CostScore(s.cost.actions, c.budget.value));
    }
  }

  lemma SessionComponentsDeclared(m: Matrix, s: AttemptSession)
    requires CapabilityMatrix.Accepted(m) && SessionOk(s)
    ensures CoverageSound(m)
    ensures forall c :: c in ComponentsOfSession(m, s) ==> Declared(m, c) && FromSession(s, c)
    ensures Distinct(ComponentIds(ComponentsOfSession(m, s)))
  {
    assert CoverageSound(m);
    var coverage := MatchingCoverage(m, s);
    if coverage.Some? {
      var c := coverage.value;
      CostFreeDeclared(m, s, c);
      CostDeclared(m, s, c);
      KeysIdentify(FinalStates, s.id, Costs, s.id);
      KeysIdentify(Evidence, s.id, Costs, s.id);
      ConcatDistinct(CostFreeComponents(s, c), Listed(InteractionCostComponent(s, c)));
    }
  }

  ghost predicate SessionsOk(sessions: seq<AttemptSession>) {
    && (forall i :: 0 <= i < |sessions| ==> SessionOk(sessions[i]))
    && (forall i, j :: 0 <= i < j < |sessions| ==> sessions[i].id != sessions[j].id)
  }

  ghost predicate FromSessions(sessions: seq<AttemptSession>, c: Component) {
    exists i :: 0 <= i < |sessions| && FromSession(sessions[i], c)
  }

  ghost predicate CoverageSound(m: Matrix) {
    forall c :: c in m.coverage ==> CoverageOk(c)
  }

  lemma {:induction false} ComponentOrigin(m: Matrix, sessions: seq<AttemptSession>, c: Component)
    requires CoverageSound(m) && c in SessionComponents(m, sessions)
    ensures exists i :: 0 <= i < |sessions| && c in ComponentsOfSession(m, sessions[i])
  {
    var n := |sessions| - 1;
    if c !in ComponentsOfSession(m, sessions[n]) {
      ComponentOrigin(m, sessions[..n], c);
      var i :| 0 <= i < n && c in ComponentsOfSession(m, sessions[..n][i]);
      assert c in ComponentsOfSession(m, sessions[i]);
    }
  }

  lemma {:induction false} SessionIdsDistinct(m: Matrix, sessions: seq<AttemptSession>)
    requires CoverageSound(m) && SessionsOk(sessions)
    requires forall i :: 0 <= i < |sessions| ==> Distinct(ComponentIds(ComponentsOfSession(m, sessions[i])))
    requires forall i, c :: 0 <= i < |sessions| && c in ComponentsOfSession(m, sessions[i]) ==> FromSession(sessions[i], c)
    ensures Distinct(ComponentIds(SessionComponents(m, sessions)))
  {
    if sessions != [] {
      var n := |sessions| - 1;
      SessionIdsDistinct(m, sessions[..n]);
      var (a, b) := (SessionComponents(m, sessions[..n]), ComponentsOfSession(m, sessions[n]));
      forall x, y | x in a && y in b
        ensures x.id != y.id
      {
        ComponentOrigin(m, sessions[..n], x);
        var i :| 0 <= i < n && x in ComponentsOfSession(m, sessions[..n][i]);
        DifferentSessionsDifferentIds(sessions[i], x, sessions[n], y);
      }
      ConcatDistinct(a, b);
    }
  }

  lemma AllSessionComponentsDeclared(m: Matrix, sessions: seq<AttemptSession>)
    requires CapabilityMatrix.Accepted(m) && SessionsOk(sessions)
    ensures CoverageSound(m)
    ensures forall c :: c in SessionComponents(m, sessions) ==> Declared(m, c) && FromSessions(sessions, c)
    ensures Distinct(ComponentIds(SessionComponents(m, sessions)))
  {
    assert CoverageSound(m);
    forall i | 0 <= i < |sessions|
      ensures Distinct(ComponentIds(ComponentsOfSession(m, sessions[i])))
      ensures forall c :: c in ComponentsOfSession(m, sessions[i]) ==> Declared(m, c) && FromSession(sessions[i], c)
    {
      SessionComponentsDeclared(m, sessions[i]);
    }
    SessionIdsDistinct(m, sessions);
    forall c | c in SessionComponents(m, sessions)
      ensures Declared(m, c) && FromSessions(sessions, c)
    {
      ComponentOrigin(m, sessions, c);
    }
  }

  lemma DifferentSessionsDifferentIds(s: AttemptSession, x: Component, t: AttemptSession, y: Component)
    requires s.id != t.id && FromSession(s, x) && FromSession(t, y)
    ensures x.id != y.id
  {
    forall f: Family, g: Family
      ensures Key(f, s.id) != Key(g, t.id)
    {
      KeysIdentify(f, s.id, g, t.id);
    }
  }

  // Graph components ---------------------------------------------------------

  ghost predicate NodesDeclared(m: Matrix, g: Graphs.Graph) {
    forall n :: n in g.nodes ==>
      n.capabilityIds != [] && forall id :: id in n.capabilityIds ==> id != "" && id in CapabilityIds(m)
  }

  lemma PartComponentDeclared(m: Matrix, g: Graphs.Graph, sessions: seq<AttemptSession>, parts: seq<Verdicts.PartResult>,
                              f: Family, d: Dimension, id: string, nodeId: string)
    requires CapabilityMatrix.Accepted(m) && NodesDeclared(m, g) && Verdicts.PartsOk(parts)
    ensures var c := PartComponent(m, g, sessions, parts, Prefix(f), d, id, nodeId);
      c.Some? ==> Declared(m, c.value) && c.value.id == Key(f, id)
  {
    var node := Graphs.NodeById(g.nodes, nodeId);
    if node.Some? {
      var coverage := SelectedCoverage(m, sessions, node.value.taskSlug);
      if coverage.Some? {
        CoverageDeclared(m, coverage.value);
        assert Key(f, id) != "";
      }
    }
  }

  lemma {:induction false} DependencyComponentsDeclared(m: Matrix, g: Graphs.Graph, sessions: seq<AttemptSession>,
                                                        e: Verdicts.Evaluation, edges: seq<Graphs.Edge>)
    requires CapabilityMatrix.Accepted(m) && NodesDeclared(m, g) && Verdicts.PartsOk(e.dependencies)
    requires forall i, j :: 0 <= i < j < |edges| ==> edges[i].id != edges[j].id
    ensures var cs := DependencyComponents(m, g, sessions, e, edges);
      && (forall c :: c in cs ==> Declared(m, c) && exists i :: 0 <= i < |edges| && c.id == Key(Dependencies, edges[i].id))
      && Distinct(ComponentIds(cs))
  {
    if edges != [] {
      var n := |edges| - 1;
      DependencyComponentsDeclared(m, g, sessions, e, edges[..n]);
      PartComponentDeclared(m, g, sessions, e.dependencies, Dependencies, DependencyConsistency,
        edges[n].id, edges[n].toNodeId);
      var (a, b) := (DependencyComponents(m, g, sessions, e, edges[..n]),
                     Listed(DependencyComponent(m, g, sessions, e, edges[n])));
      forall x, y | x in a && y in b
        ensures x.id != y.id
      {
        var i :| 0 <= i < n && x.id == Key(Dependencies, edges[..n][i].id);
        KeysIdentify(Dependencies, edges[i].id, Dependencies, edges[n].id);
      }
      ConcatDistinct(a, b);
      forall c | c in a
        ensures exists i :: 0 <= i < |edges| && c.id == Key(Dependencies, edges[i].id)
      {
        var i :| 0 <= i < n && c.id == Key(Dependencies, edges[..n][i].id);
        assert c.id == Key(Dependencies, edges[i].id);
      }
    }
  }

  lemma {:induction false} RecoveryComponentsDeclared(m: Matrix, g: Graphs.Graph, sessions: seq<AttemptSession>,
                                                      e: Verdicts.Evaluation, faults: seq<Graphs.Fault>)
    requires CapabilityMatrix.Accepted(m) && NodesDeclared(m, g) && Verdicts.PartsOk(e.recoveries)
    requires forall i, j :: 0 <= i < j < |faults| ==> faults[i].id != faults[j].id
    ensures var cs := RecoveryComponents(m, g, sessions, e, faults);
      && (forall c :: c in cs ==> Declared(m, c) && exists i :: 0 <= i < |faults| && c.id == Key(Recoveries, faults[i].id))
      && Distinct(ComponentIds(cs))
  {
    if faults != [] {
      var n := |faults| - 1;
      RecoveryComponentsDeclared(m, g, sessions, e, faults[..n]);
      PartComponentDeclared(m, g, sessions, e.recoveries, Recoveries, RecoverySafety, faults[n].id, faults[n].nodeId);
      var (a, b) := (RecoveryComponents(m, g, sessions, e, faults[..n]),
                     Listed(RecoveryComponent(m, g, sessions, e, faults[n])));
      forall x, y | x in a && y in b
        ensures x.id != y.id
      {
        var i :| 0 <= i < n && x.id == Key(Recoveries, faults[..n][i].id);
        KeysIdentify(Recoveries, faults[i].id, Recoveries, faults[n].id);
      }
      ConcatDistinct(a, b);
      forall c | c in a
        ensures exists i :: 0 <= i < |faults| && c.id == Key(Recoveries, faults[i].id)
      {
        var i :| 0 <= i < n && c.id == Key(Recoveries, faults[..n][i].id);
        assert c.id == Key(Recoveries, faults[i].id);
      }
    }
  }

  lemma GraphComponentsDeclared(m: Matrix, g: Graphs.Graph, sessions: seq<AttemptSession>, e: Verdicts.Evaluation)
    requires CapabilityMatrix.Accepted(m) && Graphs.Accepted(g) && NodesDeclared(m, g) && SessionsOk(sessions)
    requires Verdicts.PartsOk(e.dependencies) && Verdicts.PartsOk(e.recoveries)
    ensures CoverageSound(m)
    ensures var cs := SessionComponents(m, sessions) + GraphComponents(m, g, sessions, e);
      (forall c :: c in cs ==> Declared(m, c)) && Distinct(ComponentIds(cs))
  {
    AllSessionComponentsDeclared(m, sessions);
    assert !Graphs.Holds(g, Graphs.DuplicateEdgeIds) && !Graphs.Holds(g, Graphs.DuplicateFaultIds);
    assert forall i :: 0 <= i < |g.edges| ==> Graphs.EdgeIds(g)[i] == g.edges[i].id;
    assert forall i :: 0 <= i < |g.faultSchedule| ==> Graphs.FaultIds(g)[i] == g.faultSchedule[i].id;
    DependencyComponentsDeclared(m, g, sessions, e, g.edges);
    RecoveryComponentsDeclared(m, g, sessions, e, g.faultSchedule);
    var a := SessionComponents(m, sessions);
    var b := DependencyComponents(m, g, sessions, e, g.edges);
    var c := RecoveryComponents(m, g, sessions, e, g.faultSchedule);
    FamiliesDisjoint(sessions, g, a, b, c);
    ConcatDistinct(b, c);
    ConcatDistinct(a, b + c);
  }

  lemma FamiliesDisjoint(sessions: seq<AttemptSession>, g: Graphs.Graph,
                         a: seq<Component>, b: seq<Component>, c: seq<Component>)
    requires forall x :: x in a ==> FromSessions(sessions, x)
    requires forall x :: x in b ==> exists i :: 0 <= i < |g.edges| && x.id == Key(Dependencies, g.edges[i].id)
    requires forall x :: x in c ==> exists i :: 0 <= i < |g.faultSchedule| && x.id == Key(Recoveries, g.faultSchedule[i].id)
    ensures forall x, y :: x in b && y in c ==> x.id != y.id
    ensures forall x, y :: x in a && y in b + c ==> x.id != y.id
  {
    forall f: Family, s: string, h: Family, t: string
      ensures Key(f, s) == Key(h, t) <==> f == h && s == t
    {
      KeysIdentify(f, s, h, t);
    }
  }

  // Node outcomes --------------------------------------------------------------

  lemma {:induction false} OutcomesWellFormed(g: Graphs.Graph, nodes: seq<Graphs.Node>, sessions: seq<AttemptSession>)
    requires SessionsOk(sessions)
    requires forall i :: 0 <= i < |nodes| ==> nodes[i].id != ""
    requires forall i, j :: 0 <= i < j < |nodes| ==> nodes[i].id != nodes[j].id
    ensures var outcomes := ScenarioOutcomes(g, nodes, sessions);
      && (forall o :: o in outcomes ==> Verdicts.OutcomeOk(o) && exists i :: 0 <= i < |nodes| && nodes[i].id == o.nodeId)
      && Distinct(Verdicts.OutcomeNodes(outcomes))
  {
    if nodes != [] {
      var rest := nodes[1..];
      OutcomesWellFormed(g, rest, sessions);
      assert forall i :: 0 <= i < |rest| ==> rest[i] == nodes[i + 1];
      OutcomeOfNodeOk(g, sessions, nodes[0]);
      var tail, first := ScenarioOutcomes(g, rest, sessions), OutcomeOfNode(g, sessions, nodes[0]);
      forall o | o in tail
        ensures o.nodeId != nodes[0].id && exists i :: 0 <= i < |nodes| && nodes[i].id == o.nodeId
      {
        var i :| 0 <= i < |rest| && rest[i].id == o.nodeId;
        assert nodes[i + 1].id == o.nodeId;
      }
      if first.Some? {
        PrependOutcome(first.value, tail);
      } else {
        assert ScenarioOutcomes(g, nodes, sessions) == tail;
      }
    }
  }

  lemma OutcomeOfNodeOk(g: Graphs.Graph, sessions: seq<AttemptSession>, node: Graphs.Node)
    requires SessionsOk(sessions) && node.id != ""
    ensures OutcomeOfNode(g, sessions, node).Some? ==> Verdicts.OutcomeOk(OutcomeOfNode(g, sessions, node).value)
  {
    var session := SessionOfTask(sessions, node.taskSlug);
    assert session.Some? ==> SessionOk(session.value);
  }

  lemma PrependOutcome(first: Verdicts.Outcome, tail: seq<Verdicts.Outcome>)
    requires Distinct(Verdicts.OutcomeNodes(tail)) && forall o :: o in tail ==> o.nodeId != first.nodeId
    ensures Distinct(Verdicts.OutcomeNodes([first] + tail))
  {
    var ids, tailIds := Verdicts.OutcomeNodes([first] + tail), Verdicts.OutcomeNodes(tail);
    assert forall i :: 0 < i < |ids| ==> ids[i] == tailIds[i - 1] && tail[i - 1] in tail;
  }

  // No throw ---------------------------------------------------------------------

  lemma NoCheckFails(m: Matrix, cs: seq<Component>)
    requires CapabilityMatrix.Accepted(m)
    requires (forall c :: c in cs ==> Declared(m, c)) && Distinct(ComponentIds(cs))
    ensures FirstFailure(m.capabilities, m.dimensions, cs) == None
  {
    assert !CapabilityMatrix.Holds(m, CapabilityMatrix.DuplicateCapabilities);
    assert !CapabilityMatrix.Holds(m, CapabilityMatrix.DuplicateDimensions);
    assert !CapabilityMatrix.Holds(m, CapabilityMatrix.WeightSum);
    SetSizeDecidesDistinct(CapabilityIds(m));
    SetSizeDecidesDistinct(DimensionIds(m));
    SetSizeDecidesDistinct(ComponentIds(cs));
    assert forall i :: 0 <= i < |cs| ==> Declared(m, cs[i]);
    assert References(cs, Elements(CapabilityIds(m)));
  }

  lemma AggregationNeverThrows(m: Matrix, cs: seq<Component>)
    requires CapabilityMatrix.Accepted(m)
    requires (forall c :: c in cs ==> Declared(m, c)) && Distinct(ComponentIds(cs))
    ensures AggregateCapabilityScores(m.capabilities, m.dimensions, cs)
      == Ok(BreakdownOf(m.capabilities, m.dimensions, cs))
    ensures BreakdownOk(BreakdownOf(m.capabilities, m.dimensions, cs))
  {
    NoCheckFails(m, cs);
    BreakdownStaysInUnit(m.capabilities, m.dimensions, cs);
  }

  lemma NodesOfAcceptedSuiteDeclared(suite: Suite)
    requires SuiteManifest.Accepted(suite) && suite.graph.Some?
    ensures suite.matrix.Some? && NodesDeclared(suite.matrix.value, suite.graph.value)
  {
    assert !SuiteManifest.Holds(suite, SuiteManifest.GraphWithoutMatrix);
    var g := suite.graph.value;
    forall n | n in g.nodes
      ensures n.capabilityIds != []
      ensures forall id :: id in n.capabilityIds ==> id != "" && id in CapabilityIds(suite.matrix.value)
    {
      var i :| 0 <= i < |g.nodes| && g.nodes[i] == n;
      assert Graphs.NodeOk(g.nodes[i]);
      forall id | id in n.capabilityIds
        ensures id in CapabilityIds(suite.matrix.value)
      {
        assert !SuiteManifest.Holds(suite, NodeUnknownCapability(i, id));
      }
    }
  }

  /** The components and the scenario evaluation of an attempt under an accepted
      suite: everything that the aggregation receives. */
  ghost function ScenarioOf(g: Graphs.Graph, sessions: seq<AttemptSession>): Verdicts.Evaluation {
    Verdicts.EvaluationOf(g, ScenarioOutcomes(g, g.nodes, sessions))
  }

  ghost function AllComponents(suite: Suite, sessions: seq<AttemptSession>): seq<Component>
    requires suite.matrix.Some? && CapabilityMatrix.Accepted(suite.matrix.value)
  {
    var m := suite.matrix.value;
    assert CoverageSound(m);
    SessionComponents(m, sessions)
    + if suite.graph.Some? then GraphComponents(m, suite.graph.value, sessions, ScenarioOf(suite.graph.value, sessions))
      else []
  }

  /** For every manifest the suite schema accepts and every attempt with
      distinct session ids and scores in [0,1], no check of the evaluation
      throws, and the result is the breakdown of exactly these components. */
  lemma EvaluationNeverThrows(suite: Suite, sessions: seq<AttemptSession>)
    requires SuiteManifest.Accepted(suite) && SessionsOk(sessions)
    ensures suite.matrix.None? ==> Evaluate(suite.matrix, suite.graph, sessions) == Ok(None)
    ensures suite.matrix.Some? ==>
      && CapabilityMatrix.Accepted(suite.matrix.value)
      && var m := suite.matrix.value;
      var breakdown := BreakdownOf(m.capabilities, m.dimensions, AllComponents(suite, sessions));
      && BreakdownOk(breakdown)
      && Evaluate(suite.matrix, suite.graph, sessions) == Ok(Some(AttemptEvaluation(breakdown,
           if suite.graph.Some? then Some(Verdicts.Project(ScenarioOf(suite.graph.value, sessions))) else None)))
  {
    assert !SuiteManifest.Holds(suite, SuiteManifest.GraphWithoutMatrix);
    if suite.matrix.Some? {
      var m := suite.matrix.value;
      AllSessionComponentsDeclared(m, sessions);
      var cs := AllComponents(suite, sessions);
      if suite.graph.Some? {
        var g := suite.graph.value;
        NodesOfAcceptedSuiteDeclared(suite);
        ScenarioNeverThrows(g, sessions);
        GraphComponentsDeclared(m, g, sessions, ScenarioOf(g, sessions));
      } else {
        assert cs == SessionComponents(m, sessions);
      }
      AggregationNeverThrows(m, cs);
    }
  }

  lemma ScenarioNeverThrows(g: Graphs.Graph, sessions: seq<AttemptSession>)
    requires Graphs.Accepted(g) && SessionsOk(sessions)
    ensures Verdicts.EvaluateScenarioGraph(g, ScenarioOutcomes(g, g.nodes, sessions)) == Ok(ScenarioOf(g, sessions))
    ensures Verdicts.PartsOk(ScenarioOf(g, sessions).dependencies) && Verdicts.PartsOk(ScenarioOf(g, sessions).recoveries)
  {
    assert !Graphs.Holds(g, Graphs.DuplicateNodeIds);
    assert forall i :: 0 <= i < |g.nodes| ==> Graphs.NodeOk(g.nodes[i]) && Graphs.NodeIds(g)[i] == g.nodes[i].id;
    OutcomesWellFormed(g, g.nodes, sessions);
    var outcomes := ScenarioOutcomes(g, g.nodes, sessions);
    forall i | 0 <= i < |outcomes|
      ensures Verdicts.OutcomeOk(outcomes[i]) && outcomes[i].nodeId in Graphs.NodeIds(g)
    {
      assert outcomes[i] in outcomes;
      var k :| 0 <= k < |g.nodes| && g.nodes[k].id == outcomes[i].nodeId;
      assert Graphs.NodeIds(g)[k] == outcomes[i].nodeId;
    }
    Verdicts.EvaluationNeverThrows(g, outcomes);
  }

  // Interaction cost ---------------------------------------------------------------

  /** Two attempts that differ at most in their recorded action costs. */
  ghost predicate DifferInCostOnly(a: seq<AttemptSession>, b: seq<AttemptSession>) {
    && |a| == |b|
    && forall i :: 0 <= i < |a| ==> b[i] == a[i].(cost := b[i].cost)
  }

  /** Every cost is unchanged, or a recorded count lowered to another count. */
  ghost predicate CostsLowered(a: seq<AttemptSession>, b: seq<AttemptSession>) {
    && DifferInCostOnly(a, b)
    && forall i :: 0 <= i < |a| ==>
      || b[i].cost == a[i].cost
      || (a[i].cost.Recorded? && b[i].cost.Recorded? && 0.0 <= b[i].cost.actions <= a[i].cost.actions)
  }

  lemma {:induction false} CostInvisibleToLookup(m: Matrix, a: seq<AttemptSession>, b: seq<AttemptSession>, task: string)
    requires DifferInCostOnly(a, b)
    ensures SelectedCoverage(m, a, task) == SelectedCoverage(m, b, task)
    ensures SessionOfTask(a, task).Some? == SessionOfTask(b, task).Some?
    ensures SessionOfTask(a, task).Some? ==>
      SessionOfTask(b, task).value == SessionOfTask(a, task).value.(cost := SessionOfTask(b, task).value.cost)
  {
    if a != [] {
      CostInvisibleToLookup(m, a[..|a| - 1], b[..|b| - 1], task);
    }
  }

  lemma {:induction false} CostInvisibleToOutcomes(m: Matrix, g: Graphs.Graph, nodes: seq<Graphs.Node>,
                                                   a: seq<AttemptSession>, b: seq<AttemptSession>)
    requires DifferInCostOnly(a, b)
    ensures ScenarioOutcomes(g, nodes, a) == ScenarioOutcomes(g, nodes, b)
  {
    if nodes != [] {
      CostInvisibleToLookup(m, a, b, nodes[0].taskSlug);
      CostInvisibleToOutcomes(m, g, nodes[1..], a, b);
    }
  }

  lemma {:induction false} CostInvisibleToDependencies(m: Matrix, g: Graphs.Graph, e: Verdicts.Evaluation,
      edges: seq<Graphs.Edge>, a: seq<AttemptSession>, b: seq<AttemptSession>)
    requires DifferInCostOnly(a, b)
    ensures DependencyComponents(m, g, a, e, edges) == DependencyComponents(m, g, b, e, edges)
  {
    if edges != [] {
      CostInvisibleToDependencies(m, g, e, edges[..|edges| - 1], a, b);
      var node := Graphs.NodeById(g.nodes, edges[|edges| - 1].toNodeId);
      if node.Some? {
        CostInvisibleToLookup(m, a, b, node.value.taskSlug);
      }
    }
  }

  lemma {:induction false} CostInvisibleToRecoveries(m: Matrix, g: Graphs.Graph, e: Verdicts.Evaluation,
      faults: seq<Graphs.Fault>, a: seq<AttemptSession>, b: seq<AttemptSession>)
    requires DifferInCostOnly(a, b)
    ensures RecoveryComponents(m, g, a, e, faults) == RecoveryComponents(m, g, b, e, faults)
  {
    if faults != [] {
      CostInvisibleToRecoveries(m, g, e, faults[..|faults| - 1], a, b);
      var node := Graphs.NodeById(g.nodes, faults[|faults| - 1].nodeId);
      if node.Some? {
        CostInvisibleToLookup(m, a, b, node.value.taskSlug);
      }
    }
  }

  lemma {:induction false} RequiredSessionComponentsAgree(m: Matrix, a: seq<AttemptSession>, b: seq<AttemptSession>)
    requires CoverageSound(m) && DifferInCostOnly(a, b)
    ensures Filter(IsRequired(), SessionComponents(m, a)) == Filter(IsRequired(), SessionComponents(m, b))
  {
    if a != [] {
      var n := |a| - 1;
      RequiredSessionComponentsAgree(m, a[..n], b[..n]);
      FilterConcat(IsRequired(), SessionComponents(m, a[..n]), ComponentsOfSession(m, a[n]));
      FilterConcat(IsRequired(), SessionComponents(m, b[..n]), ComponentsOfSession(m, b[n]));
      RequiredOfSessionAgree(m, a[n], b[n]);
    }
  }

  lemma RequiredOfSessionAgree(m: Matrix, s: AttemptSession, t: AttemptSession)
    requires CoverageSound(m) && t == s.(cost := t.cost)
    ensures Filter(IsRequired(), ComponentsOfSession(m, s)) == Filter(IsRequired(), ComponentsOfSession(m, t))
  {
    var coverage := MatchingCoverage(m, s);
    if coverage.Some? {
      var c := coverage.value;
      RequiredAreCostFree(s, c);
      RequiredAreCostFree(t, c);
      assert CostFreeComponents(t, c) == CostFreeComponents(s, c);
    }
  }

  lemma RequiredAreCostFree(s: AttemptSession, c: Coverage)
    requires CoverageOk(c)
    ensures Filter(IsRequired(), CostFreeComponents(s, c) + Listed(InteractionCostComponent(s, c)))
      == Filter(IsRequired(), CostFreeComponents(s, c))
  {
    CostIsOptional(s, c);
    FilterConcat(IsRequired(), CostFreeComponents(s, c), Listed(InteractionCostComponent(s, c)));
  }

  lemma CostIsOptional(s: AttemptSession, c: Coverage)
    requires CoverageOk(c)
    ensures Filter(IsRequired(), Listed(InteractionCostComponent(s, c))) == []
  {
  }

  ghost predicate EvaluatesTo(suite: Suite, sessions: seq<AttemptSession>, r: AttemptEvaluation) {
    Evaluate(suite.matrix, suite.graph, sessions) == Ok(Some(r))
  }

  lemma EvaluationOfAttempt(suite: Suite, sessions: seq<AttemptSession>) returns (r: AttemptEvaluation)
    requires SuiteManifest.Accepted(suite) && suite.matrix.Some? && SessionsOk(sessions)
    ensures CapabilityMatrix.Accepted(suite.matrix.value)
    ensures EvaluatesTo(suite, sessions, r)
    ensures var m := suite.matrix.value;
      r.capabilities == BreakdownOf(m.capabilities, m.dimensions, AllComponents(suite, sessions))
    ensures r.scenarioGraph ==
      if suite.graph.Some? then Some(Verdicts.Project(ScenarioOf(suite.graph.value, sessions))) else None
  {
    EvaluationNeverThrows(suite, sessions);
    r := Evaluate(suite.matrix, suite.graph, sessions).value.value;
  }

  /** Action costs decide no status: neither of a track, nor of a dimension,
      nor of the breakdown, nor of the scenario, nor of the suite. */
  lemma InteractionCostNeverDecides(suite: Suite, a: seq<AttemptSession>, b: seq<AttemptSession>,
                                    scores: seq<SessionScore>, checks: seq<CheckResult>)
    returns (ra: AttemptEvaluation, rb: AttemptEvaluation)
    requires SuiteManifest.Accepted(suite) && suite.matrix.Some?
    requires SessionsOk(a) && DifferInCostOnly(a, b)
    ensures EvaluatesTo(suite, a, ra) && EvaluatesTo(suite, b, rb)
    ensures SameStatuses(ra.capabilities, rb.capabilities) && ra.scenarioGraph == rb.scenarioGraph
    ensures AggregateSuiteScore(scores, checks, Some(ra.capabilities), ra.scenarioGraph).status
      == AggregateSuiteScore(scores, checks, Some(rb.capabilities), rb.scenarioGraph).status
  {
    ra := EvaluationOfAttempt(suite, a);
    rb := EvaluationOfAttempt(suite, b);
    BreakdownStatusesAgree(suite, a, b);
    if suite.graph.Some? {
      CostInvisibleToOutcomes(suite.matrix.value, suite.graph.value, suite.graph.value.nodes, a, b);
    }
    SuiteStatusSeesStatusOnly(scores, checks, ra.capabilities, rb.capabilities, ra.scenarioGraph);
  }

  lemma BreakdownStatusesAgree(suite: Suite, a: seq<AttemptSession>, b: seq<AttemptSession>)
    requires suite.matrix.Some? && CapabilityMatrix.Accepted(suite.matrix.value) && DifferInCostOnly(a, b)
    ensures var m := suite.matrix.value;
      SameStatuses(BreakdownOf(m.capabilities, m.dimensions, AllComponents(suite, a)),
                   BreakdownOf(m.capabilities, m.dimensions, AllComponents(suite, b)))
  {
    var m := suite.matrix.value;
    var graphPart := GraphPartAgrees(suite, a, b);
    RequiredSessionComponentsAgree(m, a, b);
    FilterConcat(IsRequired(), SessionComponents(m, a), graphPart);
    FilterConcat(IsRequired(), SessionComponents(m, b), graphPart);
    StatusesIgnoreOptional(m.capabilities, m.dimensions, AllComponents(suite, a), AllComponents(suite, b));
  }

  lemma GraphPartAgrees(suite: Suite, a: seq<AttemptSession>, b: seq<AttemptSession>) returns (graphPart: seq<Component>)
    requires suite.matrix.Some? && CapabilityMatrix.Accepted(suite.matrix.value) && DifferInCostOnly(a, b)
    ensures CoverageSound(suite.matrix.value)
    ensures AllComponents(suite, a) == SessionComponents(suite.matrix.value, a) + graphPart
    ensures AllComponents(suite, b) == SessionComponents(suite.matrix.value, b) + graphPart
    ensures suite.graph.Some? ==> ScenarioOf(suite.graph.value, a) == ScenarioOf(suite.graph.value, b)
  {
    var m := suite.matrix.value;
    assert CoverageSound(m);
    graphPart := [];
    if suite.graph.Some? {
      var g := suite.graph.value;
      CostInvisibleToOutcomes(m, g, g.nodes, a, b);
      CostInvisibleToDependencies(m, g, ScenarioOf(g, a), g.edges, a, b);
      CostInvisibleToRecoveries(m, g, ScenarioOf(g, a), g.faultSchedule, a, b);
      graphPart := GraphComponents(m, g, a, ScenarioOf(g, a));
    }
  }

  lemma CostScoreFalls(low: real, high: real, budget: Budget)
    requires budget.preferredMaxActions < budget.hardMaxActions && low <= high
    ensures CostScore(high, budget) <= CostScore(low, budget)
  {
    var preferred, hard := budget.preferredMaxActions as real, budget.hardMaxActions as real;
    CostScoreInUnit(low, budget);
    CostScoreInUnit(high, budget);
    if preferred < low && high < hard {
      DivideMonotone(hard - high, hard - low, hard - preferred);
    }
  }

  lemma SessionScoresRise(m: Matrix, s: AttemptSession, t: AttemptSession)
    requires CoverageSound(m) && CostsLowered([s], [t])
    ensures OptionalScoresRise(ComponentsOfSession(m, s), ComponentsOfSession(m, t))
  {
    assert [t][0] == [s][0].(cost := [t][0].cost);
    var coverage := MatchingCoverage(m, s);
    if coverage.Some? && InteractionCostComponent(s, coverage.value).Some? {
      var c := coverage.value;
      var budget := c.budget.value;
      CostScoreFalls(t.cost.actions, s.cost.actions, budget);
      RoundedIsMonotone(CostScore(s.cost.actions, budget), CostScore(t.cost.actions, budget));
    }
  }

  lemma {:induction false} AttemptScoresRise(m: Matrix, a: seq<AttemptSession>, b: seq<AttemptSession>)
    requires CoverageSound(m) && CostsLowered(a, b)
    ensures OptionalScoresRise(SessionComponents(m, a), SessionComponents(m, b))
  {
    if a != [] {
      var n := |a| - 1;
      AttemptScoresRise(m, a[..n], b[..n]);
      SessionScoresRise(m, a[n], b[n]);
      RiseConcat(SessionComponents(m, a[..n]), ComponentsOfSession(m, a[n]),
        SessionComponents(m, b[..n]), ComponentsOfSession(m, b[n]));
    }
  }

  lemma RiseConcat(cs: seq<Component>, more: seq<Component>, ds: seq<Component>, moreDs: seq<Component>)
    requires OptionalScoresRise(cs, ds) && OptionalScoresRise(more, moreDs)
    ensures OptionalScoresRise(cs + more, ds + moreDs)
  {
  }

  /** Spending fewer actions never lowers a score: through the rounding of the
      component, of the dimension and of the total, up to the suite score. */
  lemma LowerCostNeverLowersScore(suite: Suite, a: seq<AttemptSession>, b: seq<AttemptSession>,
                                  scores: seq<SessionScore>, checks: seq<CheckResult>)
    returns (ra: AttemptEvaluation, rb: AttemptEvaluation)
    requires SuiteManifest.Accepted(suite) && suite.matrix.Some?
    requires SessionsOk(a) && CostsLowered(a, b)
    ensures EvaluatesTo(suite, a, ra) && EvaluatesTo(suite, b, rb)
    ensures ScoresNotLower(ra.capabilities, rb.capabilities)
    ensures AggregateSuiteScore(scores, checks, Some(ra.capabilities), ra.scenarioGraph).score
      <= AggregateSuiteScore(scores, checks, Some(rb.capabilities), rb.scenarioGraph).score
  {
    ra := EvaluationOfAttempt(suite, a);
    rb := EvaluationOfAttempt(suite, b);
    BreakdownScoresRise(suite, a, b);
  }

  lemma BreakdownScoresRise(suite: Suite, a: seq<AttemptSession>, b: seq<AttemptSession>)
    requires suite.matrix.Some? && CapabilityMatrix.Accepted(suite.matrix.value) && CostsLowered(a, b)
    ensures var m := suite.matrix.value;
      ScoresNotLower(BreakdownOf(m.capabilities, m.dimensions, AllComponents(suite, a)),
                     BreakdownOf(m.capabilities, m.dimensions, AllComponents(suite, b)))
  {
    var m := suite.matrix.value;
    var graphPart := GraphPartAgrees(suite, a, b);
    AttemptScoresRise(m, a, b);
    assert OptionalScoresRise(AllComponents(suite, a), AllComponents(suite, b));
    BreakdownRises(m.capabilities, m.dimensions, AllComponents(suite, a), AllComponents(suite, b));
  }
}
