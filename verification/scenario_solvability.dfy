/** Which published scenario graphs an attempt can pass at all: the graph, the fault
    machine of its sessions and the evaluation taken together. */
module ScenarioSolvability {
  import opened Collections
  import opened ScenarioGraph
  import opened ScenarioVerdict
  import opened FaultGuarantees
  import opened FaultRecovery
  import Aggregation = CapabilityAggregation
  import Evaluations = CapabilityGuarantees
  import Scoring

  type AttemptSession = Aggregation.Session

  /** The recovered faults of a session are what its fault machine has recorded. */
  ghost predicate Recorded(g: Graph, s: AttemptSession) {
    exists rs :: s.recoveredFaultIds == FaultGuarantees.StateAfter(SessionSchedule(g, s.taskSlug), rs).recovered
  }

  ghost predicate AttemptOk(g: Graph, sessions: seq<AttemptSession>) {
    && Evaluations.SessionsOk(sessions)
    && forall i :: 0 <= i < |sessions| ==> Recorded(g, sessions[i])
  }

  predicate IsRequiredNode(g: Graph, id: string) {
    var node := NodeById(g.nodes, id);
    node.Some? && node.value.kind.Required?
  }

  ghost predicate FaultsCompatible(g: Graph) {
    forall f, h :: f in g.faultSchedule && h in g.faultSchedule && TriggerTask(g, f) == TriggerTask(g, h) ==> !Collide(f, h)
  }

  /** A distractor is passed by leaving it alone, so nothing can be proved on it. */
  ghost predicate NothingAskedOfDistractors(g: Graph) {
    && (forall f :: f in g.faultSchedule && f.requiredRecovery ==> IsRequiredNode(g, f.nodeId))
    && (forall e :: e in g.edges && e.required && e.relation.Revises? ==> IsRequiredNode(g, e.toNodeId))
  }

  ghost predicate Solvable(g: Graph) {
    FaultsCompatible(g) && NothingAskedOfDistractors(g)
  }

  ghost predicate Passes(g: Graph, sessions: seq<AttemptSession>) {
    Evaluations.ScenarioOf(g, sessions).status == Scoring.Passed
  }

  // Outcomes by node ---------------------------------------------------------------------

  lemma {:induction false} OutcomeMembers(g: Graph, nodes: seq<Node>, sessions: seq<AttemptSession>)
    ensures var outcomes := Aggregation.ScenarioOutcomes(g, nodes, sessions);
      && (forall n :: n in nodes && Aggregation.OutcomeOfNode(g, sessions, n).Some? ==>
           Aggregation.OutcomeOfNode(g, sessions, n).value in outcomes)
      && (forall o :: o in outcomes ==> exists n :: n in nodes && Aggregation.OutcomeOfNode(g, sessions, n) == Some(o))
  {
    if nodes != [] {
      OutcomeMembers(g, nodes[1..], sessions);
      assert forall n :: n in nodes <==> n == nodes[0] || n in nodes[1..];
    }
  }

  lemma NodesById(g: Graph, m: Node, n: Node)
    requires ScenarioGraph.Accepted(g) && m in g.nodes && n in g.nodes && m.id == n.id
    ensures m == n
  {
    assert !Holds(g, DuplicateNodeIds);
    var i :| 0 <= i < |g.nodes| && g.nodes[i] == m;
    var j :| 0 <= j < |g.nodes| && g.nodes[j] == n;
    assert NodeIds(g)[i] == NodeIds(g)[j];
  }

  lemma OutcomeIsOfNode(g: Graph, sessions: seq<AttemptSession>, n: Node)
    requires ScenarioGraph.Accepted(g) && n in g.nodes
    ensures OutcomeOf(Aggregation.ScenarioOutcomes(g, g.nodes, sessions), n.id) == Aggregation.OutcomeOfNode(g, sessions, n)
  {
    OutcomeMembers(g, g.nodes, sessions);
    var outcomes := Aggregation.ScenarioOutcomes(g, g.nodes, sessions);
    var found := OutcomeOf(outcomes, n.id);
    if found.Some? {
      var m :| m in g.nodes && Aggregation.OutcomeOfNode(g, sessions, m) == Some(found.value);
      NodesById(g, m, n);
    }
  }

  lemma KnownNode(g: Graph, id: string)
    requires ScenarioGraph.Accepted(g) && id in NodeIds(g)
    ensures NodeById(g.nodes, id).Some? && NodeById(g.nodes, id).value in g.nodes && NodeById(g.nodes, id).value.id == id
  {
    var i :| 0 <= i < |g.nodes| && NodeIds(g)[i] == id;
    assert g.nodes[i].id == id;
  }

  lemma FaultNodeKnown(g: Graph, f: Fault)
    requires ScenarioGraph.Accepted(g) && f in g.faultSchedule
    ensures f.nodeId in NodeIds(g)
    ensures f in SessionSchedule(g, TriggerTask(g, f))
  {
    var i :| 0 <= i < |g.faultSchedule| && g.faultSchedule[i] == f;
    assert !Holds(g, UnknownFaultNode(i));
    KnownNode(g, f.nodeId);
    var node := NodeById(g.nodes, f.nodeId).value;
    var k :| 0 <= k < |g.nodes| && g.nodes[k] == node;
    assert OfTask(g, TriggerTask(g, f))(f);
    FilterMembers(OfTask(g, TriggerTask(g, f)), g.faultSchedule);
  }

  lemma EndpointKnown(g: Graph, e: Edge)
    requires ScenarioGraph.Accepted(g) && e in g.edges
    ensures e.fromNodeId in NodeIds(g) && e.toNodeId in NodeIds(g)
  {
    var i :| 0 <= i < |g.edges| && g.edges[i] == e;
    assert !Holds(g, UnknownEndpoint(i));
  }

  // What passing takes ---------------------------------------------------------------------

  /** The outcome of a satisfied node that something was proved on. */
  lemma ProvedNodeIsRequired(g: Graph, sessions: seq<AttemptSession>, id: string)
    requires ScenarioGraph.Accepted(g) && id in NodeIds(g)
    requires ScenarioSatisfied(g, Aggregation.ScenarioOutcomes(g, g.nodes, sessions))
    requires OutcomeOf(Aggregation.ScenarioOutcomes(g, g.nodes, sessions), id).Some?
    ensures IsRequiredNode(g, id)
    ensures var node := NodeById(g.nodes, id).value;
      && Aggregation.SessionOfTask(sessions, node.taskSlug).Some?
      && OutcomeOf(Aggregation.ScenarioOutcomes(g, g.nodes, sessions), id).value.recoveredFaultIds
        == Aggregation.SessionOfTask(sessions, node.taskSlug).value.recoveredFaultIds
  {
    KnownNode(g, id);
    var node := NodeById(g.nodes, id).value;
    OutcomeIsOfNode(g, sessions, node);
    var i :| 0 <= i < |g.nodes| && g.nodes[i] == node;
    assert NodeSatisfied(g.nodes[i], Aggregation.ScenarioOutcomes(g, g.nodes, sessions));
  }

  lemma RecoveredInSession(g: Graph, sessions: seq<AttemptSession>, f: Fault)
    requires ScenarioGraph.Accepted(g) && f in g.faultSchedule && f.requiredRecovery
    requires ScenarioSatisfied(g, Aggregation.ScenarioOutcomes(g, g.nodes, sessions))
    ensures IsRequiredNode(g, f.nodeId)
    ensures var session := Aggregation.SessionOfTask(sessions, TriggerTask(g, f));
      session.Some? && f.id in session.value.recoveredFaultIds
  {
    FaultNodeKnown(g, f);
    var i :| 0 <= i < |g.faultSchedule| && g.faultSchedule[i] == f;
    assert FaultRecovered(g.faultSchedule[i], Aggregation.ScenarioOutcomes(g, g.nodes, sessions));
    ProvedNodeIsRequired(g, sessions, f.nodeId);
  }

  lemma PassedIsSolvable(g: Graph, sessions: seq<AttemptSession>)
    requires ScenarioGraph.Accepted(g) && AttemptOk(g, sessions) && Passes(g, sessions)
    ensures Solvable(g)
  {
    var outcomes := Aggregation.ScenarioOutcomes(g, g.nodes, sessions);
    VerdictMeaning(g, outcomes);
    forall f | f in g.faultSchedule && f.requiredRecovery
      ensures IsRequiredNode(g, f.nodeId)
    {
      RecoveredInSession(g, sessions, f);
    }
    forall e | e in g.edges && e.required && e.relation.Revises?
      ensures IsRequiredNode(g, e.toNodeId)
    {
      EndpointKnown(g, e);
      var i :| 0 <= i < |g.edges| && g.edges[i] == e;
      assert RevisionRecorded(g.edges[i], outcomes);
      ProvedNodeIsRequired(g, sessions, e.toNodeId);
    }
    forall f, h | f in g.faultSchedule && h in g.faultSchedule && TriggerTask(g, f) == TriggerTask(g, h)
      ensures !Collide(f, h)
    {
      if Collide(f, h) {
        CollidingFaultsNotBothRecovered(g, sessions, f, h);
      }
    }
  }

  lemma CollidingFaultsNotBothRecovered(g: Graph, sessions: seq<AttemptSession>, f: Fault, h: Fault)
    requires ScenarioGraph.Accepted(g) && AttemptOk(g, sessions)
    requires f in g.faultSchedule && h in g.faultSchedule && TriggerTask(g, f) == TriggerTask(g, h) && Collide(f, h)
    ensures !ScenarioSatisfied(g, Aggregation.ScenarioOutcomes(g, g.nodes, sessions))
  {
    if ScenarioSatisfied(g, Aggregation.ScenarioOutcomes(g, g.nodes, sessions)) {
      RecoveredInSession(g, sessions, f);
      RecoveredInSession(g, sessions, h);
      FaultNodeKnown(g, f);
      FaultNodeKnown(g, h);
      var task := TriggerTask(g, f);
      var session := Aggregation.SessionOfTask(sessions, task).value;
      assert Recorded(g, session);
      var rs :| session.recoveredFaultIds == FaultGuarantees.StateAfter(SessionSchedule(g, task), rs).recovered;
      SessionScheduleOk(g, task);
      CollisionIsFatal(SessionSchedule(g, task), rs, f, h);
    }
  }

  // An attempt that passes -------------------------------------------------------------------

  function AvoidanceNames(nodes: seq<Node>): (names: seq<string>)
    ensures forall n :: n in nodes && n.avoidanceEvaluatorName.Some? ==> n.avoidanceEvaluatorName.value in names
  {
    if nodes == [] then []
    else
      (if nodes[0].avoidanceEvaluatorName.Some? then [nodes[0].avoidanceEvaluatorName.value] else [])
      + AvoidanceNames(nodes[1..])
  }

  function ProofNames(edges: seq<Edge>): (names: seq<string>)
    ensures forall e :: e in edges && e.proofEvaluatorName.Some? ==> e.proofEvaluatorName.value in names
  {
    if edges == [] then []
    else
      (if edges[0].proofEvaluatorName.Some? then [edges[0].proofEvaluatorName.value] else []) + ProofNames(edges[1..])
  }

  /** Every evaluator passes. */
  function Passing(names: seq<string>): seq<Aggregation.Evaluator> {
    if names == [] then []
    else [Aggregation.Evaluator(Aggregation.UiState, names[0], 1.0, Scoring.Passed, false)] + Passing(names[1..])
  }

  lemma {:induction false} PassingMeaning(names: seq<string>, name: string)
    requires name in names
    ensures Aggregation.ParsedEvaluators(Passing(names)) == Passing(names)
    ensures var found := Aggregation.FirstNamed(Passing(names), name);
      found.Some? && found.value.status == Scoring.Passed
    ensures Aggregation.ProvedBy(Passing(names), name)
  {
    AllParsed(names);
    var passing := Passing(names);
    if names[0] == name {
      assert passing[0].name == name && passing[0].status.Passed?;
    } else {
      PassingMeaning(names[1..], name);
      assert passing[1..] == Passing(names[1..]);
      var i :| 0 <= i < |passing[1..]| && passing[1..][i].name == name && passing[1..][i].status.Passed?;
      assert passing[i + 1].name == name && passing[i + 1].status.Passed?;
    }
  }

  lemma {:induction false} AllParsed(names: seq<string>)
    ensures Aggregation.ParsedEvaluators(Passing(names)) == Passing(names)
  {
    if names != [] {
      AllParsed(names[1..]);
      assert Passing(names)[1..] == Passing(names[1..]);
    }
  }

  function EvaluatorNames(g: Graph): seq<string> {
    AvoidanceNames(g.nodes) + ProofNames(g.edges)
  }

  /** The session of a node's task: everything passes, and every fault that its
      schedule can recover is recovered. */
  function PerfectSession(g: Graph, n: Node): AttemptSession {
    Aggregation.Session(n.id, n.taskSlug, None, Scoring.Passed, 1.0, Passing(EvaluatorNames(g)),
      FaultGuarantees.StateAfter(SessionSchedule(g, n.taskSlug), FullHistory(SessionSchedule(g, n.taskSlug))).recovered,
      Aggregation.Missing)
  }

  function PerfectSessions(g: Graph): seq<AttemptSession> {
    seq(|g.nodes|, i requires 0 <= i < |g.nodes| => PerfectSession(g, g.nodes[i]))
  }

  lemma PerfectAttemptOk(g: Graph)
    requires ScenarioGraph.Accepted(g)
    ensures AttemptOk(g, PerfectSessions(g))
  {
    assert !Holds(g, DuplicateNodeIds);
    assert forall i :: 0 <= i < |g.nodes| ==> NodeIds(g)[i] == PerfectSessions(g)[i].id;
  }

  lemma {:induction false} LastOfTask(sessions: seq<AttemptSession>, s: AttemptSession)
    requires s in sessions
    ensures Aggregation.SessionOfTask(sessions, s.taskSlug).Some?
  {
    if sessions[|sessions| - 1].taskSlug != s.taskSlug {
      LastOfTask(sessions[..|sessions| - 1], s);
    }
  }

  lemma PerfectSessionOfTask(g: Graph, n: Node)
    requires n in g.nodes
    ensures var found := Aggregation.SessionOfTask(PerfectSessions(g), n.taskSlug);
      found.Some? && found.value == PerfectSession(g, n).(id := found.value.id)
  {
    var sessions := PerfectSessions(g);
    var i :| 0 <= i < |g.nodes| && g.nodes[i] == n;
    assert sessions[i] == PerfectSession(g, n);
    LastOfTask(sessions, PerfectSession(g, n));
    var found := Aggregation.SessionOfTask(sessions, n.taskSlug).value;
    var j :| 0 <= j < |sessions| && sessions[j] == found;
    assert found == PerfectSession(g, g.nodes[j]);
  }

  /** What the perfect attempt shows for a node. */
  lemma PerfectOutcome(g: Graph, n: Node)
    requires ScenarioGraph.Accepted(g) && n in g.nodes
    ensures var outcome := OutcomeOf(Aggregation.ScenarioOutcomes(g, g.nodes, PerfectSessions(g)), n.id);
      if n.kind.Distractor? then outcome.None?
      else
        outcome == Some(Outcome(n.id, OutcomePassed, 1.0,
          Aggregation.RevisedNodes(g.edges, n.id, Passing(EvaluatorNames(g))),
          PerfectSession(g, n).recoveredFaultIds))
  {
    OutcomeIsOfNode(g, PerfectSessions(g), n);
    PerfectSessionOfTask(g, n);
    AllParsed(EvaluatorNames(g));
    if n.kind.Distractor? {
      var i :| 0 <= i < |g.nodes| && g.nodes[i] == n;
      assert NodeOk(g.nodes[i]);
      PassingMeaning(EvaluatorNames(g), n.avoidanceEvaluatorName.value);
    }
  }

  lemma {:induction false} RevisionShown(edges: seq<Edge>, e: Edge, evaluators: seq<Aggregation.Evaluator>)
    requires e in edges && e.relation.Revises? && e.proofEvaluatorName.Some?
    requires Aggregation.ProvedBy(evaluators, e.proofEvaluatorName.value)
    ensures e.fromNodeId in Aggregation.RevisedNodes(edges, e.toNodeId, evaluators)
  {
    if edges[0] != e {
      RevisionShown(edges[1..], e, evaluators);
    }
  }

  lemma PerfectRevision(g: Graph, e: Edge)
    requires ScenarioGraph.Accepted(g) && NothingAskedOfDistractors(g) && e in g.edges && e.required && e.relation.Revises?
    ensures RevisionRecorded(e, Aggregation.ScenarioOutcomes(g, g.nodes, PerfectSessions(g)))
  {
    EndpointKnown(g, e);
    KnownNode(g, e.toNodeId);
    PerfectOutcome(g, NodeById(g.nodes, e.toNodeId).value);
    var i :| 0 <= i < |g.edges| && g.edges[i] == e;
    assert EdgeOk(g.edges[i]);
    PassingMeaning(EvaluatorNames(g), e.proofEvaluatorName.value);
    RevisionShown(g.edges, e, Passing(EvaluatorNames(g)));
  }

  lemma ScheduleHasNoCollision(g: Graph, task: string)
    requires ScenarioGraph.Accepted(g) && FaultsCompatible(g)
    ensures TriggersOk(SessionSchedule(g, task)) && NoCollision(SessionSchedule(g, task))
  {
    assert !Holds(g, DuplicateNodeIds);
    FilterMembers(OfTask(g, task), g.faultSchedule);
    forall f | f in SessionSchedule(g, task)
      ensures f.occurrence > 0 && f in g.faultSchedule && TriggerTask(g, f) == task
    {
      var i :| 0 <= i < |g.faultSchedule| && g.faultSchedule[i] == f;
      assert FaultOk(g.faultSchedule[i]);
      TaskOfFault(g, task, f);
    }
  }

  lemma PerfectRecovery(g: Graph, f: Fault)
    requires ScenarioGraph.Accepted(g) && Solvable(g) && f in g.faultSchedule && f.requiredRecovery
    ensures FaultRecovered(f, Aggregation.ScenarioOutcomes(g, g.nodes, PerfectSessions(g)))
  {
    FaultNodeKnown(g, f);
    KnownNode(g, f.nodeId);
    var node := NodeById(g.nodes, f.nodeId).value;
    PerfectOutcome(g, node);
    var schedule := SessionSchedule(g, node.taskSlug);
    SessionScheduleOk(g, node.taskSlug);
    ScheduleHasNoCollision(g, node.taskSlug);
    FullHistoryRecovers(schedule);
  }

  lemma SolvableIsPassed(g: Graph)
    requires ScenarioGraph.Accepted(g) && Solvable(g)
    ensures AttemptOk(g, PerfectSessions(g)) && Passes(g, PerfectSessions(g))
  {
    PerfectAttemptOk(g);
    var outcomes := Aggregation.ScenarioOutcomes(g, g.nodes, PerfectSessions(g));
    forall i | 0 <= i < |g.nodes|
      ensures NodeSatisfied(g.nodes[i], outcomes)
    {
      PerfectOutcome(g, g.nodes[i]);
    }
    forall i | 0 <= i < |g.edges| && g.edges[i].required
      ensures g.edges[i].fromNodeId in NodeIds(g) && g.edges[i].toNodeId in NodeIds(g)
      ensures g.edges[i].relation.Revises? ==> RevisionRecorded(g.edges[i], outcomes)
    {
      EndpointKnown(g, g.edges[i]);
      if g.edges[i].relation.Revises? {
        PerfectRevision(g, g.edges[i]);
      }
    }
    forall i | 0 <= i < |g.faultSchedule| && g.faultSchedule[i].requiredRecovery
      ensures FaultRecovered(g.faultSchedule[i], outcomes)
    {
      PerfectRecovery(g, g.faultSchedule[i]);
    }
    VerdictMeaning(g, outcomes);
  }

  /** Some attempt passes an accepted graph exactly when no task has two required
      faults of one request class at adjacent occurrences, and no required fault and
      no required revision is placed on a distractor. The schema checks neither. */
  lemma PassableIffSolvable(g: Graph)
    requires ScenarioGraph.Accepted(g)
    ensures (exists sessions :: AttemptOk(g, sessions) && Passes(g, sessions)) <==> Solvable(g)
  {
    if Solvable(g) {
      SolvableIsPassed(g);
    }
    if sessions :| AttemptOk(g, sessions) && Passes(g, sessions) {
      PassedIsSolvable(g, sessions);
    }
  }
}
