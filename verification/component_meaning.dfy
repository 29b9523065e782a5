/** Which components an attempt is scored by, and which outcomes its nodes have, in
    terms of its sessions, the coverage entries and the graph. */
module ComponentMeaning {
  import opened Collections
  import opened CapabilityMatrix
  import opened Rounding
  import opened Scoring
  import opened MeanLaws
  import opened CapabilityAggregation
  import opened CapabilityGuarantees
  import Graphs = ScenarioGraph
  import ScenarioParts
  import Verdicts = ScenarioVerdict

  // Coverage and evaluators ------------------------------------------------------------

  predicate Covers(c: Coverage, s: AttemptSession) {
    s.variantId.Some? && s.variantId.value != "" && c.taskSlug == s.taskSlug && c.variantId == s.variantId.value
  }

  /** Entry `k` is the first that covers the session. */
  ghost predicate CoveredBy(m: Matrix, s: AttemptSession, k: nat) {
    && k < |m.coverage| && Covers(m.coverage[k], s)
    && forall j :: 0 <= j < k ==> !Covers(m.coverage[j], s)
  }

  lemma {:induction false} FirstCoverageMeaning(coverage: seq<Coverage>, taskSlug: string, variantId: string)
    returns (k: nat)
    ensures match FirstCoverage(coverage, taskSlug, variantId)
      case None => forall j :: 0 <= j < |coverage| ==> coverage[j].taskSlug != taskSlug || coverage[j].variantId != variantId
      case Some(c) =>
        && k < |coverage| && coverage[k] == c && c.taskSlug == taskSlug && c.variantId == variantId
        && forall j :: 0 <= j < k ==> coverage[j].taskSlug != taskSlug || coverage[j].variantId != variantId
  {
    k := 0;
    if coverage != [] && !(coverage[0].taskSlug == taskSlug && coverage[0].variantId == variantId) {
      k := FirstCoverageMeaning(coverage[1..], taskSlug, variantId);
      k := k + 1;
      assert forall j :: 0 < j < |coverage| ==> coverage[j] == coverage[1..][j - 1];
    }
  }

  /** The coverage the code looks up is that of the first covering entry. */
  lemma MatchingMeaning(m: Matrix, s: AttemptSession)
    ensures forall k: nat :: CoveredBy(m, s, k) ==> MatchingCoverage(m, s) == Some(m.coverage[k])
    ensures MatchingCoverage(m, s).Some? ==> exists k: nat :: CoveredBy(m, s, k) && MatchingCoverage(m, s).value == m.coverage[k]
  {
    if s.variantId.Some? && s.variantId.value != "" {
      var k := FirstCoverageMeaning(m.coverage, s.taskSlug, s.variantId.value);
      if MatchingCoverage(m, s).Some? {
        assert CoveredBy(m, s, k);
      }
      forall j: nat | CoveredBy(m, s, j)
        ensures MatchingCoverage(m, s).Some? && j == k
      {
      }
    }
  }

  /** An evaluator record that parses and counts as evidence. */
  predicate Shows(e: Evaluator) {
    e.required && (e.kind == RetrieveValue || e.kind == UiState) && 0.0 <= e.score <= 1.0
  }

  ghost predicate HasEvidence(s: AttemptSession) {
    exists e :: e in s.evaluators && Shows(e)
  }

  function EvidenceShares(s: AttemptSession): seq<Weighted> {
    seq(|s.evaluators|, i requires 0 <= i < |s.evaluators| =>
      Weighted(s.evaluators[i].score, if Shows(s.evaluators[i]) then 1.0 else 0.0))
  }

  function EvidenceOf(s: AttemptSession): seq<Evaluator> {
    Filter(IsEvidence(), ParsedEvaluators(s.evaluators))
  }

  lemma EvidenceMembers(s: AttemptSession)
    ensures forall e :: e in EvidenceOf(s) <==> e in s.evaluators && Shows(e)
  {
    FilterMembers(IsParsed(), s.evaluators);
    FilterMembers(IsEvidence(), ParsedEvaluators(s.evaluators));
  }

  function OneEach(evaluators: seq<Evaluator>): seq<Weighted> {
    seq(|evaluators|, i requires 0 <= i < |evaluators| => Weighted(evaluators[i].score, 1.0))
  }

  function SharesOf(evaluators: seq<Evaluator>): seq<Weighted> {
    seq(|evaluators|, i requires 0 <= i < |evaluators| =>
      Weighted(evaluators[i].score, if Shows(evaluators[i]) then 1.0 else 0.0))
  }

  function Showing(): Evaluator -> bool {
    (e: Evaluator) => Shows(e)
  }

  lemma {:induction false} ShownTotals(evaluators: seq<Evaluator>)
    ensures TotalWeight(OneEach(Filter(Showing(), evaluators))) == TotalWeight(SharesOf(evaluators))
    ensures WeightedSum(OneEach(Filter(Showing(), evaluators))) == WeightedSum(SharesOf(evaluators))
  {
    if evaluators != [] {
      var rest := evaluators[1..];
      ShownTotals(rest);
      assert SharesOf(evaluators)[1..] == SharesOf(rest);
      if Shows(evaluators[0]) {
        assert Filter(Showing(), evaluators) == [evaluators[0]] + Filter(Showing(), rest);
        assert OneEach(Filter(Showing(), evaluators))[1..] == OneEach(Filter(Showing(), rest));
      } else {
        TimesZero(evaluators[0].score);
        assert Filter(Showing(), evaluators) == Filter(Showing(), rest);
      }
    }
  }

  lemma EvidenceMean(s: AttemptSession)
    ensures Mean(OneEach(EvidenceOf(s))) == Mean(EvidenceShares(s))
  {
    FilterTwice(IsEvidence(), IsParsed(), Showing(), s.evaluators);
    ShownTotals(s.evaluators);
    assert EvidenceShares(s) == SharesOf(s.evaluators);
  }

  // Session components -----------------------------------------------------------------

  ghost predicate IsFinalState(m: Matrix, s: AttemptSession, c: Component) {
    exists k: nat :: CoveredBy(m, s, k) && FinalState in m.coverage[k].dimensionIds
      && c == Component("final-state:" + s.id, m.coverage[k].capabilityIds, FinalState, s.status,
           if s.status == Passed then s.score else 0.0, 1.0, true)
  }

  ghost predicate TellsEvidence(s: AttemptSession, c: Component) {
    && (c.status == Errored <==> exists e :: e in s.evaluators && Shows(e) && e.status == Errored)
    && (c.status == Passed <==> forall e :: e in s.evaluators && Shows(e) ==> e.status == Passed)
    && c.score == Rounded(Mean(EvidenceShares(s)))
  }

  ghost predicate IsEvidenceFor(m: Matrix, s: AttemptSession, c: Component) {
    exists k: nat :: CoveredBy(m, s, k) && EvidenceVerification in m.coverage[k].dimensionIds && HasEvidence(s)
      && c == Component("evidence:" + s.id, m.coverage[k].capabilityIds, EvidenceVerification, c.status, c.score, 1.0, true)
      && TellsEvidence(s, c)
  }

  /** Full marks up to the preferred number of actions, none from the hard one on, and
      linear in between. */
  ghost predicate CostLaw(raw: real, actions: real, b: Budget) {
    && (actions <= b.preferredMaxActions as real ==> raw == 1.0)
    && (actions >= b.hardMaxActions as real ==> raw == 0.0)
    && (b.preferredMaxActions as real < actions < b.hardMaxActions as real ==>
         Times(raw, b.hardMaxActions as real - b.preferredMaxActions as real) == b.hardMaxActions as real - actions)
  }

  ghost predicate IsCostOf(m: Matrix, s: AttemptSession, c: Component) {
    exists k: nat, raw: real :: CoveredBy(m, s, k) && InteractionCost in m.coverage[k].dimensionIds
      && m.coverage[k].budget.Some? && s.cost.Recorded? && s.cost.actions >= 0.0
      && CostLaw(raw, s.cost.actions, m.coverage[k].budget.value)
      && c == Component("interaction-cost:" + s.id, m.coverage[k].capabilityIds, InteractionCost, Passed, Rounded(raw), 1.0, false)
  }

  ghost predicate IsOfSession(m: Matrix, s: AttemptSession, c: Component) {
    IsFinalState(m, s, c) || IsEvidenceFor(m, s, c) || IsCostOf(m, s, c)
  }

  lemma FinalStateMeaning(m: Matrix, s: AttemptSession, c: Component)
    ensures IsFinalState(m, s, c) <==>
      var coverage := MatchingCoverage(m, s);
      coverage.Some? && FinalState in coverage.value.dimensionIds && c == FinalStateComponent(s, coverage.value)
  {
    MatchingMeaning(m, s);
  }

  function EvaluatorStatuses(evaluators: seq<Evaluator>): seq<Status> {
    seq(|evaluators|, i requires 0 <= i < |evaluators| => evaluators[i].status)
  }

  lemma EvaluatorsByMember(evaluators: seq<Evaluator>)
    ensures AnyError(EvaluatorStatuses(evaluators)) <==> exists e :: e in evaluators && e.status == Errored
    ensures AllPassed(EvaluatorStatuses(evaluators)) <==> forall e :: e in evaluators ==> e.status == Passed
  {
    assert forall i :: 0 <= i < |evaluators| ==> EvaluatorStatuses(evaluators)[i] == evaluators[i].status;
    if e :| e in evaluators && e.status == Errored {
      var i :| 0 <= i < |evaluators| && evaluators[i] == e;
      assert EvaluatorStatuses(evaluators)[i] == Errored;
    }
  }

  lemma EvidenceStatusMeaning(s: AttemptSession, status: Status)
    ensures status == Verdict(EvaluatorStatuses(EvidenceOf(s)), true) <==>
      && (status == Errored <==> exists e :: e in s.evaluators && Shows(e) && e.status == Errored)
      && (status == Passed <==> forall e :: e in s.evaluators && Shows(e) ==> e.status == Passed)
  {
    EvidenceMembers(s);
    EvaluatorsByMember(EvidenceOf(s));
  }

  lemma EvidenceComponentMeaning(s: AttemptSession, coverage: Coverage, c: Component)
    ensures EvidenceComponent(s, coverage) == Some(c) <==>
      && HasEvidence(s) && TellsEvidence(s, c)
      && c == Component("evidence:" + s.id, coverage.capabilityIds, EvidenceVerification, c.status, c.score, 1.0, true)
  {
    EvidenceMembers(s);
    EvidenceStatusMeaning(s, c.status);
    EvidenceMean(s);
    if EvidenceOf(s) != [] {
      assert EvidenceOf(s)[0] in EvidenceOf(s);
    }
  }

  lemma EvidenceMeaning(m: Matrix, s: AttemptSession, c: Component)
    ensures IsEvidenceFor(m, s, c) <==>
      var coverage := MatchingCoverage(m, s);
      coverage.Some? && EvidenceVerification in coverage.value.dimensionIds && EvidenceComponent(s, coverage.value) == Some(c)
  {
    MatchingMeaning(m, s);
    if MatchingCoverage(m, s).Some? {
      EvidenceComponentMeaning(s, MatchingCoverage(m, s).value, c);
    }
  }

  lemma CostScoreMeaning(actions: real, b: Budget, raw: real)
    requires b.preferredMaxActions < b.hardMaxActions
    ensures CostLaw(raw, actions, b) <==> raw == CostScore(actions, b)
  {
    var preferred, hard := b.preferredMaxActions as real, b.hardMaxActions as real;
    if preferred < actions < hard {
      QuotientTimes(hard - actions, hard - preferred);
      if CostLaw(raw, actions, b) {
        TimesCancels(raw, CostScore(actions, b), hard - preferred);
      }
    }
  }

  lemma CostMeaning(m: Matrix, s: AttemptSession, c: Component)
    requires CoverageSound(m)
    ensures IsCostOf(m, s, c) <==>
      var coverage := MatchingCoverage(m, s);
      coverage.Some? && CoverageOk(coverage.value) && InteractionCostComponent(s, coverage.value) == Some(c)
  {
    MatchingMeaning(m, s);
    if MatchingCoverage(m, s).Some? {
      var coverage := MatchingCoverage(m, s).value;
      assert CoverageOk(coverage);
      if coverage.budget.Some? && s.cost.Recorded? {
        forall raw
          ensures CostLaw(raw, s.cost.actions, coverage.budget.value) <==> raw == CostScore(s.cost.actions, coverage.budget.value)
        {
          CostScoreMeaning(s.cost.actions, coverage.budget.value, raw);
        }
      }
    }
  }

  lemma SessionMeaning(m: Matrix, s: AttemptSession, c: Component)
    requires CoverageSound(m)
    ensures c in ComponentsOfSession(m, s) <==> IsOfSession(m, s, c)
  {
    FinalStateMeaning(m, s, c);
    EvidenceMeaning(m, s, c);
    CostMeaning(m, s, c);
  }

  /** The session components are exactly those the coverage and the sessions ask for. */
  lemma {:induction false} SessionComponentsMeaning(m: Matrix, sessions: seq<AttemptSession>, c: Component)
    requires CoverageSound(m)
    ensures c in SessionComponents(m, sessions) <==> exists s :: s in sessions && IsOfSession(m, s, c)
  {
    if sessions != [] {
      var front, last := sessions[..|sessions| - 1], sessions[|sessions| - 1];
      SessionComponentsMeaning(m, front, c);
      SessionMeaning(m, last, c);
      assert forall s :: s in sessions <==> s in front || s == last;
    }
  }

  // Graph components -------------------------------------------------------------------

  ghost predicate IsCovered(m: Matrix, s: AttemptSession) {
    exists k: nat :: CoveredBy(m, s, k)
  }

  /** Session `i` is the last covered one of the task, and entry `k` covers it. */
  ghost predicate SelectedBy(m: Matrix, sessions: seq<AttemptSession>, task: string, i: nat, k: nat) {
    && i < |sessions| && sessions[i].taskSlug == task && CoveredBy(m, sessions[i], k)
    && forall j :: i < j < |sessions| && sessions[j].taskSlug == task ==> !IsCovered(m, sessions[j])
  }

  lemma {:induction false} SelectedMeaning(m: Matrix, sessions: seq<AttemptSession>, task: string)
    ensures forall i: nat, k: nat :: SelectedBy(m, sessions, task, i, k) ==>
      SelectedCoverage(m, sessions, task) == Some(m.coverage[k])
    ensures SelectedCoverage(m, sessions, task).Some? ==>
      exists i: nat, k: nat :: SelectedBy(m, sessions, task, i, k) && SelectedCoverage(m, sessions, task).value == m.coverage[k]
  {
    if sessions != [] {
      var n := |sessions| - 1;
      var front, last := sessions[..n], sessions[n];
      SelectedMeaning(m, front, task);
      MatchingMeaning(m, last);
      forall i: nat, k: nat | SelectedBy(m, sessions, task, i, k)
        ensures SelectedCoverage(m, sessions, task) == Some(m.coverage[k])
      {
        if i < n {
          assert !(last.taskSlug == task && IsCovered(m, last));
          assert SelectedBy(m, front, task, i, k);
        }
      }
      if last.taskSlug == task && MatchingCoverage(m, last).Some? {
        var k: nat :| CoveredBy(m, last, k) && MatchingCoverage(m, last).value == m.coverage[k];
        assert SelectedBy(m, sessions, task, n, k);
      } else if SelectedCoverage(m, front, task).Some? {
        var i: nat, k: nat :| SelectedBy(m, front, task, i, k) && SelectedCoverage(m, front, task).value == m.coverage[k];
        assert SelectedBy(m, sessions, task, i, k);
      }
    }
  }

  lemma {:induction false} PartByIdMeaning(parts: seq<Verdicts.PartResult>, i: nat)
    requires i < |parts| && forall j, k :: 0 <= j < k < |parts| ==> parts[j].id != parts[k].id
    ensures PartById(parts, parts[i].id) == Some(parts[i])
  {
    if i < |parts| - 1 {
      PartByIdMeaning(parts[..|parts| - 1], i);
    }
  }

  /** A component for one part of the evaluation, on a node whose selected coverage
      lists the dimension. */
  ghost predicate IsPartOn(m: Matrix, g: Graphs.Graph, sessions: seq<AttemptSession>, prefix: string, d: Dimension,
                           r: Verdicts.PartResult, nodeId: string, c: Component)
  {
    exists n: Graphs.Node, i: nat, k: nat :: n in g.nodes && n.id == nodeId && SelectedBy(m, sessions, n.taskSlug, i, k)
      && d in m.coverage[k].dimensionIds
      && c == Component(prefix + r.id, n.capabilityIds, d, r.status, r.score, r.weight, r.required)
  }

  lemma PartOnMeaning(m: Matrix, g: Graphs.Graph, sessions: seq<AttemptSession>, parts: seq<Verdicts.PartResult>,
                      prefix: string, d: Dimension, i: nat, nodeId: string, c: Component)
    requires Graphs.Accepted(g) && i < |parts| && forall j, k :: 0 <= j < k < |parts| ==> parts[j].id != parts[k].id
    ensures PartComponent(m, g, sessions, parts, prefix, d, parts[i].id, nodeId) == Some(c) <==>
      IsPartOn(m, g, sessions, prefix, d, parts[i], nodeId, c)
  {
    PartByIdMeaning(parts, i);
    var node := Graphs.NodeById(g.nodes, nodeId);
    forall n | n in g.nodes && n.id == nodeId
      ensures node == Some(n)
    {
      NodeIsUnique(g, n);
    }
    if node.Some? {
      SelectedMeaning(m, sessions, node.value.taskSlug);
    }
  }

  lemma NodeIsUnique(g: Graphs.Graph, n: Graphs.Node)
    requires Graphs.Accepted(g) && n in g.nodes
    ensures Graphs.NodeById(g.nodes, n.id) == Some(n)
  {
    assert !Graphs.Holds(g, Graphs.DuplicateNodeIds);
    var i :| 0 <= i < |g.nodes| && g.nodes[i] == n;
    var found := Graphs.NodeById(g.nodes, n.id);
    assert found.Some?;
    var j :| 0 <= j < |g.nodes| && g.nodes[j] == found.value;
    assert Graphs.NodeIds(g)[i] == Graphs.NodeIds(g)[j];
  }

  ghost predicate IsDependency(m: Matrix, g: Graphs.Graph, sessions: seq<AttemptSession>, e: Verdicts.Evaluation, c: Component)
    requires |e.dependencies| == |g.edges|
  {
    exists i :: 0 <= i < |g.edges|
      && IsPartOn(m, g, sessions, "dependency:", DependencyConsistency, e.dependencies[i], g.edges[i].toNodeId, c)
  }

  ghost predicate IsRecovery(m: Matrix, g: Graphs.Graph, sessions: seq<AttemptSession>, e: Verdicts.Evaluation, c: Component)
    requires |e.recoveries| == |g.faultSchedule|
  {
    exists i :: 0 <= i < |g.faultSchedule|
      && IsPartOn(m, g, sessions, "recovery:", RecoverySafety, e.recoveries[i], g.faultSchedule[i].nodeId, c)
  }

  lemma {:induction false} DependenciesByEdge(m: Matrix, g: Graphs.Graph, sessions: seq<AttemptSession>,
                                              e: Verdicts.Evaluation, edges: seq<Graphs.Edge>, c: Component)
    ensures c in DependencyComponents(m, g, sessions, e, edges) <==>
      exists i :: 0 <= i < |edges| && DependencyComponent(m, g, sessions, e, edges[i]) == Some(c)
  {
    if edges != [] {
      DependenciesByEdge(m, g, sessions, e, edges[..|edges| - 1], c);
      assert forall i :: 0 <= i < |edges| - 1 ==> edges[..|edges| - 1][i] == edges[i];
    }
  }

  lemma {:induction false} RecoveriesByFault(m: Matrix, g: Graphs.Graph, sessions: seq<AttemptSession>,
                                             e: Verdicts.Evaluation, faults: seq<Graphs.Fault>, c: Component)
    ensures c in RecoveryComponents(m, g, sessions, e, faults) <==>
      exists i :: 0 <= i < |faults| && RecoveryComponent(m, g, sessions, e, faults[i]) == Some(c)
  {
    if faults != [] {
      RecoveriesByFault(m, g, sessions, e, faults[..|faults| - 1], c);
      assert forall i :: 0 <= i < |faults| - 1 ==> faults[..|faults| - 1][i] == faults[i];
    }
  }

  lemma EdgeIdsDistinct(g: Graphs.Graph, outcomes: seq<Verdicts.Outcome>)
    requires Graphs.Accepted(g)
    ensures var e := Verdicts.EvaluationOf(g, outcomes);
      && |e.dependencies| == |g.edges| && |e.recoveries| == |g.faultSchedule|
      && (forall i :: 0 <= i < |g.edges| ==> e.dependencies[i].id == g.edges[i].id)
      && (forall i :: 0 <= i < |g.faultSchedule| ==> e.recoveries[i].id == g.faultSchedule[i].id)
      && (forall j, k :: 0 <= j < k < |e.dependencies| ==> e.dependencies[j].id != e.dependencies[k].id)
      && (forall j, k :: 0 <= j < k < |e.recoveries| ==> e.recoveries[j].id != e.recoveries[k].id)
  {
    assert !Graphs.Holds(g, Graphs.DuplicateEdgeIds) && !Graphs.Holds(g, Graphs.DuplicateFaultIds);
    assert forall i :: 0 <= i < |g.edges| ==> Graphs.EdgeIds(g)[i] == g.edges[i].id;
    assert forall i :: 0 <= i < |g.faultSchedule| ==> Graphs.FaultIds(g)[i] == g.faultSchedule[i].id;
  }

  /** Each edge and each fault gives the component of its own result. */
  lemma GraphComponentsMeaning(m: Matrix, g: Graphs.Graph, sessions: seq<AttemptSession>, c: Component)
    requires Graphs.Accepted(g)
    ensures var e := ScenarioOf(g, sessions);
      && |e.dependencies| == |g.edges| && |e.recoveries| == |g.faultSchedule|
      && (c in GraphComponents(m, g, sessions, e) <==> IsDependency(m, g, sessions, e, c) || IsRecovery(m, g, sessions, e, c))
  {
    var e := ScenarioOf(g, sessions);
    EdgeIdsDistinct(g, ScenarioOutcomes(g, g.nodes, sessions));
    DependenciesByEdge(m, g, sessions, e, g.edges, c);
    RecoveriesByFault(m, g, sessions, e, g.faultSchedule, c);
    forall i | 0 <= i < |g.edges|
      ensures DependencyComponent(m, g, sessions, e, g.edges[i]) == Some(c) <==>
        IsPartOn(m, g, sessions, "dependency:", DependencyConsistency, e.dependencies[i], g.edges[i].toNodeId, c)
    {
      PartOnMeaning(m, g, sessions, e.dependencies, "dependency:", DependencyConsistency, i, g.edges[i].toNodeId, c);
    }
    forall i | 0 <= i < |g.faultSchedule|
      ensures RecoveryComponent(m, g, sessions, e, g.faultSchedule[i]) == Some(c) <==>
        IsPartOn(m, g, sessions, "recovery:", RecoverySafety, e.recoveries[i], g.faultSchedule[i].nodeId, c)
    {
      PartOnMeaning(m, g, sessions, e.recoveries, "recovery:", RecoverySafety, i, g.faultSchedule[i].nodeId, c);
    }
  }

  // Node outcomes ------------------------------------------------------------------------

  /** Session `i` is the last one of the task. */
  ghost predicate LastOf(sessions: seq<AttemptSession>, task: string, i: nat) {
    && i < |sessions| && sessions[i].taskSlug == task
    && forall j :: i < j < |sessions| ==> sessions[j].taskSlug != task
  }

  lemma {:induction false} SessionOfTaskMeaning(sessions: seq<AttemptSession>, task: string)
    ensures forall i: nat :: LastOf(sessions, task, i) ==> SessionOfTask(sessions, task) == Some(sessions[i])
    ensures SessionOfTask(sessions, task).None? <==> forall i :: 0 <= i < |sessions| ==> sessions[i].taskSlug != task
  {
    if sessions != [] {
      var n := |sessions| - 1;
      SessionOfTaskMeaning(sessions[..n], task);
      assert forall i :: 0 <= i < n ==> sessions[..n][i] == sessions[i];
      forall i: nat | LastOf(sessions, task, i)
        ensures SessionOfTask(sessions, task) == Some(sessions[i])
      {
        if i < n {
          assert LastOf(sessions[..n], task, i);
        }
      }
    }
  }

  /** Evaluator `i` is the first in-range one of that name. */
  ghost predicate FirstOfName(evaluators: seq<Evaluator>, name: string, i: nat) {
    && i < |evaluators| && InRange(evaluators[i]) && evaluators[i].name == name
    && forall j :: 0 <= j < i ==> !(InRange(evaluators[j]) && evaluators[j].name == name)
  }

  predicate InRange(e: Evaluator) {
    0.0 <= e.score <= 1.0
  }

  lemma {:induction false} FirstNamedMeaning(evaluators: seq<Evaluator>, name: string)
    ensures forall i: nat :: FirstOfName(evaluators, name, i) ==>
      FirstNamed(ParsedEvaluators(evaluators), name) == Some(evaluators[i])
    ensures FirstNamed(ParsedEvaluators(evaluators), name).Some? ==>
      exists i: nat :: FirstOfName(evaluators, name, i) && FirstNamed(ParsedEvaluators(evaluators), name).value == evaluators[i]
  {
    if evaluators != [] {
      var rest := evaluators[1..];
      FirstNamedMeaning(rest, name);
      assert forall j :: 0 < j < |evaluators| ==> evaluators[j] == rest[j - 1];
      var found := FirstNamed(ParsedEvaluators(evaluators), name);
      if InRange(evaluators[0]) {
        assert ParsedEvaluators(evaluators) == [evaluators[0]] + ParsedEvaluators(rest);
        assert ParsedEvaluators(evaluators)[1..] == ParsedEvaluators(rest);
      } else {
        assert ParsedEvaluators(evaluators) == ParsedEvaluators(rest);
      }
      if InRange(evaluators[0]) && evaluators[0].name == name {
        assert FirstOfName(evaluators, name, 0);
      } else {
        assert found == FirstNamed(ParsedEvaluators(rest), name);
        forall i: nat | FirstOfName(evaluators, name, i)
          ensures found == Some(evaluators[i])
        {
          assert forall j :: 0 <= j < i - 1 ==> rest[j] == evaluators[j + 1];
          assert FirstOfName(rest, name, i - 1);
        }
        if found.Some? {
          var i: nat :| FirstOfName(rest, name, i) && found.value == rest[i];
          assert FirstOfName(evaluators, name, i + 1);
        }
      }
    }
  }

  /** Some in-range evaluator of that name passed. */
  ghost predicate Proved(s: AttemptSession, name: string) {
    exists e :: e in s.evaluators && InRange(e) && e.name == name && e.status == Passed
  }

  lemma ProvedMeaning(s: AttemptSession, name: string)
    ensures ProvedBy(ParsedEvaluators(s.evaluators), name) <==> Proved(s, name)
  {
    var parsed := ParsedEvaluators(s.evaluators);
    FilterMembers(IsParsed(), s.evaluators);
    if i :| 0 <= i < |parsed| && parsed[i].name == name && parsed[i].status.Passed? {
      assert parsed[i] in parsed;
    }
    if e :| e in s.evaluators && InRange(e) && e.name == name && e.status == Passed {
      assert e in parsed;
      var i :| 0 <= i < |parsed| && parsed[i] == e;
      assert parsed[i].name == name;
    }
  }

  /** Edge `x` revises node `id` from node `source`, and the session proves it. */
  predicate RevisesFrom(x: Graphs.Edge, id: string, source: string) {
    x.relation.Revises? && x.toNodeId == id && x.fromNodeId == source && x.proofEvaluatorName.Some?
  }

  lemma {:induction false} RevisedMeaning(edges: seq<Graphs.Edge>, id: string, s: AttemptSession, source: string)
    ensures source in RevisedNodes(edges, id, ParsedEvaluators(s.evaluators)) <==>
      exists x :: x in edges && RevisesFrom(x, id, source) && Proved(s, x.proofEvaluatorName.value)
  {
    if edges != [] {
      RevisedMeaning(edges[1..], id, s, source);
      assert forall x :: x in edges <==> x == edges[0] || x in edges[1..];
      if edges[0].proofEvaluatorName.Some? {
        ProvedMeaning(s, edges[0].proofEvaluatorName.value);
      }
    }
  }

  /** The outcome of a distractor: none once its avoidance evaluator has passed. */
  ghost predicate IsDistractorOutcome(n: Graphs.Node, s: AttemptSession, outcome: Option<Verdicts.Outcome>)
    requires n.avoidanceEvaluatorName.Some?
  {
    var name := n.avoidanceEvaluatorName.value;
    && (outcome.None? <==> exists i: nat :: FirstOfName(s.evaluators, name, i) && s.evaluators[i].status == Passed)
    && (outcome.Some? ==>
         && outcome.value.nodeId == n.id && outcome.value.score == 0.0
         && outcome.value.revisedNodeIds == [] && outcome.value.recoveredFaultIds == []
         && outcome.value.status ==
              (if exists i: nat :: FirstOfName(s.evaluators, name, i) && s.evaluators[i].status == Errored
               then Verdicts.OutcomeError else Verdicts.OutcomeFailed))
  }

  /** The outcome of a required node is its session's. */
  ghost predicate IsRequiredOutcome(g: Graphs.Graph, n: Graphs.Node, s: AttemptSession, outcome: Option<Verdicts.Outcome>) {
    && outcome.Some? && outcome.value.nodeId == n.id
    && (outcome.value.status == Verdicts.OutcomePassed <==> s.status == Passed)
    && (outcome.value.status == Verdicts.OutcomeError <==> s.status == Errored)
    && (outcome.value.status == Verdicts.OutcomeFailed <==> s.status == Failed)
    && outcome.value.score == (if s.status == Passed then s.score else 0.0)
    && outcome.value.recoveredFaultIds == s.recoveredFaultIds
    && forall source :: source in outcome.value.revisedNodeIds <==>
         exists x :: x in g.edges && RevisesFrom(x, n.id, source) && Proved(s, x.proofEvaluatorName.value)
  }

  lemma DistractorMeaning(g: Graphs.Graph, sessions: seq<AttemptSession>, n: Graphs.Node, i: nat)
    requires LastOf(sessions, n.taskSlug, i) && n.kind.Distractor? && n.avoidanceEvaluatorName.Some?
    ensures IsDistractorOutcome(n, sessions[i], OutcomeOfNode(g, sessions, n))
  {
    SessionOfTaskMeaning(sessions, n.taskSlug);
    FirstNamedMeaning(sessions[i].evaluators, n.avoidanceEvaluatorName.value);
  }

  lemma RequiredMeaning(g: Graphs.Graph, sessions: seq<AttemptSession>, n: Graphs.Node, i: nat)
    requires LastOf(sessions, n.taskSlug, i) && n.kind.Required?
    ensures IsRequiredOutcome(g, n, sessions[i], OutcomeOfNode(g, sessions, n))
  {
    SessionOfTaskMeaning(sessions, n.taskSlug);
    forall source
      ensures source in RevisedNodes(g.edges, n.id, ParsedEvaluators(sessions[i].evaluators)) <==>
        exists x :: x in g.edges && RevisesFrom(x, n.id, source) && Proved(sessions[i], x.proofEvaluatorName.value)
    {
      RevisedMeaning(g.edges, n.id, sessions[i], source);
    }
  }

  /** What the code says of a node: nothing without a session of its task, and
      otherwise what the last session of its task shows. */
  lemma OutcomeMeaning(g: Graphs.Graph, sessions: seq<AttemptSession>, n: Graphs.Node)
    requires Graphs.NodeOk(n)
    ensures (forall i :: 0 <= i < |sessions| ==> sessions[i].taskSlug != n.taskSlug) ==> OutcomeOfNode(g, sessions, n).None?
    ensures forall i: nat :: LastOf(sessions, n.taskSlug, i) ==>
      if n.kind.Distractor? then IsDistractorOutcome(n, sessions[i], OutcomeOfNode(g, sessions, n))
      else IsRequiredOutcome(g, n, sessions[i], OutcomeOfNode(g, sessions, n))
  {
    SessionOfTaskMeaning(sessions, n.taskSlug);
    forall i: nat | LastOf(sessions, n.taskSlug, i)
      ensures if n.kind.Distractor? then IsDistractorOutcome(n, sessions[i], OutcomeOfNode(g, sessions, n))
        else IsRequiredOutcome(g, n, sessions[i], OutcomeOfNode(g, sessions, n))
    {
      if n.kind.Distractor? {
        DistractorMeaning(g, sessions, n, i);
      } else {
        RequiredMeaning(g, sessions, n, i);
      }
    }
  }
}
