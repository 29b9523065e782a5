/** What a finished attempt has stored, in terms of its persisted results. */
module StoredScore {
  import opened Collections
  import opened SuiteScore
  import opened AttemptLifecycle
  import opened AttemptGuarantees
  import opened AttemptScoring
  import Scoring
  import Rounding
  import Aggregation = CapabilityAggregation
  import Evaluations = CapabilityGuarantees
  import SuiteManifest

  function Lookup<T>(m: map<string, T>, id: string, missing: T): T {
    if id in m then m[id] else missing
  }

  /** Every session with its own persisted result and what was read of it. */
  function SessionsShown(suite: seq<Session>, results: map<string, Evidence>, t: Telemetry): seq<Aggregation.Session>
    requires NonePending(suite, results)
  {
    seq(|suite|, i requires 0 <= i < |suite| =>
      var (s, e) := (suite[i], results[suite[i].id]);
      Aggregation.Session(s.id, s.taskSlug,
        if s.id in t.variants then Some(t.variants[s.id]) else None,
        e.status, e.score, e.evaluators,
        Lookup(t.recoveredFaultIds, s.id, []),
        Lookup(t.costs, s.id, Aggregation.Missing)))
  }

  lemma {:induction false} EvaluatedSessionsMeaning(suite: seq<Session>, results: map<string, Evidence>, t: Telemetry)
    requires NonePending(suite, results)
    ensures EvaluatedSessions(suite, results, t) == SessionsShown(suite, results, t)
  {
    if suite != [] {
      var front := suite[..|suite| - 1];
      assert NonePending(front, results) by {
        assert forall i :: 0 <= i < |front| ==> front[i] == suite[i];
      }
      EvaluatedSessionsMeaning(front, results, t);
      assert EvaluatedSessions(suite, results, t) == EvaluatedSessions(front, results, t) + [SessionsShown(suite, results, t)[|suite| - 1]];
    }
  }

  /** What weighs in without a capability matrix: every session, then every check. */
  function ResultShare(suite: seq<Session>, results: map<string, Evidence>, checks: seq<CheckResult>, i: nat): Scoring.Weighted
    requires NonePending(suite, results) && i < |suite| + |checks|
  {
    if i < |suite| then Scoring.Weighted(results[suite[i].id].score, suite[i].weight)
    else Scoring.Weighted(checks[i - |suite|].score, checks[i - |suite|].weight)
  }

  function ResultShares(suite: seq<Session>, results: map<string, Evidence>, checks: seq<CheckResult>): seq<Scoring.Weighted>
    requires NonePending(suite, results)
  {
    seq(|suite| + |checks|, i requires 0 <= i < |suite| + |checks| && NonePending(suite, results) =>
      ResultShare(suite, results, checks, i))
  }

  ghost predicate RequiredSessionErred(suite: seq<Session>, results: map<string, Evidence>)
    requires NonePending(suite, results)
  {
    exists i :: 0 <= i < |suite| && suite[i].required && results[suite[i].id].status == Scoring.Errored
  }

  ghost predicate RequiredPartsPassed(suite: seq<Session>, results: map<string, Evidence>, checks: seq<CheckResult>)
    requires NonePending(suite, results)
  {
    && (forall i :: 0 <= i < |suite| && suite[i].required ==> results[suite[i].id].status == Scoring.Passed)
    && (forall i :: 0 <= i < |checks| && checks[i].required ==> checks[i].passed)
  }

  /** The score: that of the capabilities, or else the mean over results and checks. */
  ghost predicate ScoreTells(suite: seq<Session>, results: map<string, Evidence>, t: Telemetry,
                             r: Option<Aggregation.AttemptEvaluation>, result: SuiteResult)
    requires NonePending(suite, results)
  {
    && (r.Some? ==> result.score == r.value.capabilities.score)
    && (r.None? ==> result.score == Rounding.Rounded(Scoring.Mean(ResultShares(suite, results, t.checks))))
  }

  /** The status: passed when every required part did, an error when a required session,
      the capabilities or the graph erred. */
  ghost predicate StatusTells(suite: seq<Session>, results: map<string, Evidence>, t: Telemetry,
                              r: Option<Aggregation.AttemptEvaluation>, result: SuiteResult)
    requires NonePending(suite, results)
  {
    && (result.status == Scoring.Passed <==>
         && RequiredPartsPassed(suite, results, t.checks)
         && (r.Some? ==> r.value.capabilities.status == Scoring.Passed)
         && (r.Some? && r.value.scenarioGraph.Some? ==> r.value.scenarioGraph.value.status == Scoring.Passed))
    && (result.status == Scoring.Errored <==>
         || RequiredSessionErred(suite, results)
         || (r.Some? && r.value.capabilities.status == Scoring.Errored)
         || (r.Some? && r.value.scenarioGraph.Some? && r.value.scenarioGraph.value.status == Scoring.Errored))
  }

  /** `r` is the evaluation of the sessions as persisted. */
  ghost predicate IsEvaluated(manifest: Manifest, suite: seq<Session>, results: map<string, Evidence>, t: Telemetry,
                              r: Option<Aggregation.AttemptEvaluation>)
    requires NonePending(suite, results)
  {
    && Aggregation.Evaluate(manifest.matrix, manifest.graph, SessionsShown(suite, results, t)) == Scoring.Ok(r)
    && (r.Some? <==> manifest.matrix.Some?)
    && (r.Some? ==> (r.value.scenarioGraph.Some? <==> manifest.graph.Some?))
  }

  ghost predicate IsStored(suite: seq<Session>, a: Attempt, t: Telemetry, r: Option<Aggregation.AttemptEvaluation>)
    requires NonePending(suite, a.results)
  {
    && a.score.Some? && a.score.value.Aggregated?
    && ScoreTells(suite, a.results, t, r, a.score.value.result)
    && StatusTells(suite, a.results, t, r, a.score.value.result)
    && a.status == if a.score.value.result.status == Scoring.Errored then AttemptStatus.Failed else AttemptStatus.Completed
  }

  lemma EvaluationShape(manifest: Manifest, suite: seq<Session>, results: map<string, Evidence>, t: Telemetry)
    returns (r: Option<Aggregation.AttemptEvaluation>)
    requires SuiteManifest.Accepted(manifest) && SuiteOk(suite) && ResultsInUnit(results) && NonePending(suite, results)
    ensures Evaluate(manifest, suite, results, t) == Scoring.Ok(r) && IsEvaluated(manifest, suite, results, t, r)
  {
    EvaluatedSessionsOk(suite, results, t);
    EvaluatedSessionsMeaning(suite, results, t);
    Evaluations.EvaluationNeverThrows(manifest, EvaluatedSessions(suite, results, t));
    r := Evaluate(manifest, suite, results, t).value;
  }

  lemma JudgedScore(suite: seq<Session>, results: map<string, Evidence>, t: Telemetry, r: Option<Aggregation.AttemptEvaluation>)
    requires NonePending(suite, results)
    ensures ScoreTells(suite, results, t, r, Judge(suite, results, JudgementOf(t, r)))
  {
    var scores := SuiteSessions(suite, results);
    var j := JudgementOf(t, r);
    SuiteScoreMeaning(scores, j.checks, j.capabilities, j.scenario);
    assert PartsInOrder(scores, t.checks) == ResultShares(suite, results, t.checks);
  }

  lemma JudgedStatus(suite: seq<Session>, results: map<string, Evidence>, t: Telemetry, r: Option<Aggregation.AttemptEvaluation>)
    requires NonePending(suite, results)
    ensures StatusTells(suite, results, t, r, Judge(suite, results, JudgementOf(t, r)))
  {
    var scores := SuiteSessions(suite, results);
    var j := JudgementOf(t, r);
    SuiteStatusMeaning(scores, j.checks, j.capabilities, j.scenario);
    assert forall i :: 0 <= i < |suite| ==>
      scores[i].required == suite[i].required && scores[i].status == results[suite[i].id].status;
  }

  /** A judged attempt stores what its evaluation says. */
  lemma JudgedIsStored(manifest: Manifest, suite: seq<Session>, a: Attempt, t: Telemetry, j: Judgement)
    returns (r: Option<Aggregation.AttemptEvaluation>)
    requires SuiteManifest.Accepted(manifest) && SuiteOk(suite) && ResultsInUnit(a.results) && NonePending(suite, a.results)
    requires EvaluatesTo(manifest, suite, a.results, t, j)
    requires a.score == Some(Aggregated(Judge(suite, a.results, j)))
    requires a.status == if a.score.value.result.status == Scoring.Errored then AttemptStatus.Failed else AttemptStatus.Completed
    ensures IsEvaluated(manifest, suite, a.results, t, r) && IsStored(suite, a, t, r)
  {
    r := EvaluationShape(manifest, suite, a.results, t);
    assert j == JudgementOf(t, r);
    JudgedScore(suite, a.results, t, r);
    JudgedStatus(suite, a.results, t, r);
  }

  /** The lifecycle status of an attempt with all results. */
  lemma LifecycleStatus(suite: seq<Session>, actions: seq<Action>)
    requires SuiteOk(suite) && Run(suite, InitialState(suite), actions).Some?
    ensures var a := Run(suite, InitialState(suite), actions).value.attempt;
      AllHaveResults(suite, a) ==>
        a.score.Some? && a.score.value.Aggregated?
        && a.status == if a.score.value.result.status == Scoring.Errored then AttemptStatus.Failed else AttemptStatus.Completed
  {
    InitialInv(suite);
    var k := RunKeepsInv(suite, InitialState(suite), 0, actions);
    LifecycleIsSerial(suite, actions);
  }

  /** Once all sessions have results, after any interleaving: the attempt has been
      evaluated on exactly the persisted results, and score, result status and
      lifecycle status say what they and their evaluation say. */
  lemma StoredScoreMeaning(manifest: Manifest, suite: seq<Session>, actions: seq<Action>)
    returns (t: Telemetry, r: Option<Aggregation.AttemptEvaluation>)
    requires SuiteManifest.Accepted(manifest) && SuiteOk(suite)
    requires FaithfulRun(Evaluating(manifest, suite), suite, InitialState(suite), actions)
    ensures Run(suite, InitialState(suite), actions).Some?
    ensures var a := Run(suite, InitialState(suite), actions).value.attempt;
      NonePending(suite, a.results) ==>
        TelemetryOk(t) && IsEvaluated(manifest, suite, a.results, t, r) && IsStored(suite, a, t, r)
  {
    AggregateFollowsRule(Evaluating(manifest, suite), suite, actions);
    var a := Run(suite, InitialState(suite), actions).value.attempt;
    t, r := Telemetry([], map[], map[], map[]), None;
    if NonePending(suite, a.results) {
      assert AllHaveResults(suite, a);
      LifecycleStatus(suite, actions);
      var j :| JudgedBy(Evaluating(manifest, suite), suite, a, j);
      t :| EvaluatesTo(manifest, suite, a.results, t, j);
      r := JudgedIsStored(manifest, suite, a, t, j);
    }
  }
}
