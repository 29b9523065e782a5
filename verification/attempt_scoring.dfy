/** What the last completion of an attempt computes: the capability evaluation of
    the results it has read, combined into the suite result. */
module AttemptScoring {
  import opened Collections
  import opened SuiteScore
  import opened AttemptLifecycle
  import opened AttemptGuarantees
  import Scoring
  import Aggregation = CapabilityAggregation
  import Evaluations = CapabilityGuarantees
  import SuiteManifest

  type Manifest = SuiteManifest.Suite

  type Evaluation = Scoring.Result<Option<Aggregation.AttemptEvaluation>>

  /** What a worker reads besides the results: consistency checks, and of every
      session the selected variant, the recovered faults and the action cost. */
  datatype Telemetry = Telemetry(
    checks: seq<CheckResult>,
    variants: map<string, string>,
    recoveredFaultIds: map<string, seq<string>>,
    costs: map<string, Aggregation.Cost>)

  function EvaluatedSession(session: Session, e: Evidence, t: Telemetry): Aggregation.Session {
    var id := session.id;
    Aggregation.Session(id, session.taskSlug,
      if id in t.variants then Some(t.variants[id]) else None,
      e.status, e.score, e.evaluators,
      if id in t.recoveredFaultIds then t.recoveredFaultIds[id] else [],
      if id in t.costs then t.costs[id] else Aggregation.Missing)
  }

  /** The sessions that have a result, in sequence order. */
  function EvaluatedSessions(suite: seq<Session>, latest: map<string, Evidence>, t: Telemetry): seq<Aggregation.Session> {
    if suite == [] then []
    else
      var last := suite[|suite| - 1];
      EvaluatedSessions(suite[..|suite| - 1], latest, t)
      + if last.id in latest then [EvaluatedSession(last, latest[last.id], t)] else []
  }

  ghost function Evaluate(manifest: Manifest, suite: seq<Session>, latest: map<string, Evidence>, t: Telemetry): Evaluation {
    Aggregation.Evaluate(manifest.matrix, manifest.graph, EvaluatedSessions(suite, latest, t))
  }

  function JudgementOf(t: Telemetry, e: Option<Aggregation.AttemptEvaluation>): Judgement {
    Judgement(t.checks,
      if e.Some? then Some(e.value.capabilities) else None,
      if e.Some? then e.value.scenarioGraph else None)
  }

  /** A consistency check scores zero or one. */
  predicate TelemetryOk(t: Telemetry) {
    forall i :: 0 <= i < |t.checks| ==> t.checks[i].score == 0.0 || t.checks[i].score == 1.0
  }

  // Runs that follow a rule --------------------------------------------------------------

  /** Which judgements the results allow. */
  type Rule = (map<string, Evidence>, Judgement) -> bool

  predicate NonePending(suite: seq<Session>, latest: map<string, Evidence>) {
    forall i :: 0 <= i < |suite| ==> suite[i].id in latest
  }

  /** The results a worker works with: those it read, and its own. */
  function LatestOf(suite: seq<Session>, w: Worker): map<string, Evidence>
    requires w.session < |suite| && w.pc.HaveResults?
  {
    w.pc.rows[suite[w.session].id := w.result]
  }

  /** Results have scores in [0,1], and a worker that sees no pending session can
      only proceed with a judgement of the results it works with. */
  predicate Faithful(rule: Rule, suite: seq<Session>, s: State, a: Action)
    requires WellFormed(suite, s)
  {
    match a
    case Arrive(_, result) => Scoring.InUnit(result.score)
    case Step(i, Proceed(j)) =>
      i < |s.workers| && s.workers[i].pc.HaveResults? && NonePending(suite, LatestOf(suite, s.workers[i])) ==>
        rule(LatestOf(suite, s.workers[i]), j)
    case _ => true
  }

  predicate FaithfulRun(rule: Rule, suite: seq<Session>, s: State, actions: seq<Action>)
    requires WellFormed(suite, s)
    decreases |actions|
  {
    actions != [] ==>
      && Faithful(rule, suite, s, actions[0])
      && Next(suite, s, actions[0]).Some?
      && FaithfulRun(rule, suite, Next(suite, s, actions[0]).value, actions[1..])
  }

  ghost predicate ResultsInUnit(results: map<string, Evidence>) {
    forall id :: id in results ==> Scoring.InUnit(results[id].score)
  }

  ghost predicate WorkerInUnit(w: Worker) {
    && Scoring.InUnit(w.result.score)
    && (w.pc.HaveResults? ==> ResultsInUnit(w.pc.rows))
  }

  predicate JudgedBy(rule: Rule, suite: seq<Session>, a: Attempt, j: Judgement) {
    rule(a.results, j) && a.score == Some(Aggregated(Judge(suite, a.results, j)))
  }

  ghost predicate ScoreFollows(rule: Rule, suite: seq<Session>, a: Attempt) {
    a.score.Some? && a.score.value.Aggregated? ==> exists j :: JudgedBy(rule, suite, a, j)
  }

  ghost predicate ScoringInv(rule: Rule, suite: seq<Session>, s: State) {
    && ResultsInUnit(s.attempt.results)
    && (forall i :: 0 <= i < |s.workers| ==> WorkerInUnit(s.workers[i]))
    && ScoreFollows(rule, suite, s.attempt)
  }

  lemma CompletionKeepsScoring(rule: Rule, suite: seq<Session>, s: State, k: nat, i: nat, j: Judgement)
    requires SuiteOk(suite) && Inv(suite, s, k) && WellFormed(suite, s) && ScoringInv(rule, suite, s)
    requires i < |s.workers| && s.workers[i].pc.HaveResults?
    requires Faithful(rule, suite, s, Step(i, Proceed(j)))
    ensures var t := Reached(suite, s, i, j).0;
      ResultsInUnit(t.results) && ScoreFollows(rule, suite, t)
  {
    var w := s.workers[i];
    CompletionNeverRaises(suite, s, k, i, j);
    if s.attempt.status.Running? && w.session == k {
      assert WorkerOk(suite, s.attempt, k, w) && WorkerInUnit(w);
      ActiveSessionCompletes(suite, s.attempt, k, w.result, j);
      var t := Reached(suite, s, i, j).0;
      assert t.results == LatestOf(suite, w);
      if k + 1 == |suite| {
        assert NonePending(suite, t.results);
        assert JudgedBy(rule, suite, t, j);
      }
    }
  }

  lemma StepKeepsScoring(rule: Rule, suite: seq<Session>, s: State, k: nat, i: nat, c: Choice)
    requires SuiteOk(suite) && Inv(suite, s, k) && WellFormed(suite, s) && ScoringInv(rule, suite, s)
    requires Faithful(rule, suite, s, Step(i, c))
    requires i < |s.workers| && Take(suite, s, i, c).Some?
    ensures ScoringInv(rule, suite, Take(suite, s, i, c).value)
  {
    StepMovesOne(suite, s, i, c);
    var t := Take(suite, s, i, c).value;
    assert WorkerInUnit(s.workers[i]);
    if c.Proceed? && s.workers[i].pc.HaveResults? {
      CompletionKeepsScoring(rule, suite, s, k, i, c.j);
    }
    assert WorkerInUnit(t.workers[i]);
  }

  lemma NextKeepsScoring(rule: Rule, suite: seq<Session>, s: State, k: nat, a: Action)
    requires SuiteOk(suite) && Inv(suite, s, k) && WellFormed(suite, s) && ScoringInv(rule, suite, s)
    requires Faithful(rule, suite, s, a) && Next(suite, s, a).Some?
    ensures ScoringInv(rule, suite, Next(suite, s, a).value)
  {
    var t := Next(suite, s, a).value;
    match a
    case Step(i, c) => StepKeepsScoring(rule, suite, s, k, i, c);
    case Arrive(session, result) =>
      forall n | 0 <= n < |t.workers|
        ensures WorkerInUnit(t.workers[n])
      {
        if n < |s.workers| {
          assert t.workers[n] == s.workers[n];
        }
      }
    case _ =>
      if s.attempt.score.Some? && s.attempt.score.value.Aggregated? {
        assert t.attempt == s.attempt;
      }
  }

  lemma {:induction false} RunKeepsScoring(rule: Rule, suite: seq<Session>, s: State, k: nat, actions: seq<Action>)
    returns (l: nat)
    requires SuiteOk(suite) && Inv(suite, s, k) && WellFormed(suite, s) && ScoringInv(rule, suite, s)
    requires FaithfulRun(rule, suite, s, actions)
    ensures Run(suite, s, actions).Some?
    ensures Inv(suite, Run(suite, s, actions).value, l) && ScoringInv(rule, suite, Run(suite, s, actions).value)
    decreases |actions|
  {
    l := k;
    if actions != [] {
      NextKeepsScoring(rule, suite, s, k, actions[0]);
      l := NextKeepsInv(suite, s, k, actions[0]);
      l := RunKeepsScoring(rule, suite, Next(suite, s, actions[0]).value, l, actions[1..]);
    }
  }

  /** Once all sessions have results, the attempt carries a judgement that the rule
      allows for exactly the persisted results. */
  lemma AggregateFollowsRule(rule: Rule, suite: seq<Session>, actions: seq<Action>)
    requires SuiteOk(suite) && FaithfulRun(rule, suite, InitialState(suite), actions)
    ensures Run(suite, InitialState(suite), actions).Some?
    ensures ScoringInv(rule, suite, Run(suite, InitialState(suite), actions).value)
    ensures var a := Run(suite, InitialState(suite), actions).value.attempt;
      AllHaveResults(suite, a) ==> exists j :: JudgedBy(rule, suite, a, j)
  {
    InitialInv(suite);
    var k := RunKeepsScoring(rule, suite, InitialState(suite), 0, actions);
    LifecycleIsSerial(suite, actions);
  }

  // Completing an attempt by a rule --------------------------------------------------------

  /** Every list of results has a judgement. */
  ghost predicate Judges(rule: Rule) {
    forall latest :: ResultsInUnit(latest) ==> exists j :: rule(latest, j)
  }

  lemma {:induction false} FaithfulConcat(rule: Rule, suite: seq<Session>, s: State,
                                          first: seq<Action>, second: seq<Action>)
    requires WellFormed(suite, s) && FaithfulRun(rule, suite, s, first) && Run(suite, s, first).Some?
    requires FaithfulRun(rule, suite, Run(suite, s, first).value, second)
    ensures FaithfulRun(rule, suite, s, first + second)
    decreases |first|
  {
    if first == [] {
      assert first + second == second;
    } else {
      FaithfulConcat(rule, suite, Next(suite, s, first[0]).value, first[1..], second);
      assert (first + second)[1..] == first[1..] + second;
    }
  }

  lemma FaithfulReading(rule: Rule, suite: seq<Session>, s: State, k: nat, result: Evidence, j: Judgement)
    requires SuiteOk(suite) && Inv(suite, s, k) && WellFormed(suite, s) && Scoring.InUnit(result.score)
    requires s.attempt.status.Running? && |s.workers| == k
    ensures FaithfulRun(rule, suite, s, Reading(k, result, j))
  {
    ReadingSteps(suite, s, k, result, j);
    var acts := Reading(k, result, j);
    var last := WithReader(s, k, result, HaveResults(s.attempt.results));
    assert FaithfulRun(rule, suite, last, acts[1..][1..][1..]);
    assert FaithfulRun(rule, suite, WithReader(s, k, result, Guarded), acts[1..][1..]);
    assert FaithfulRun(rule, suite, WithReader(s, k, result, Begin), acts[1..]);
  }

  lemma FaithfulTurn(rule: Rule, suite: seq<Session>, s: State, k: nat, result: Evidence) returns (j: Judgement)
    requires Judges(rule) && SuiteOk(suite) && Inv(suite, s, k) && WellFormed(suite, s)
    requires s.attempt.status.Running? && |s.workers| == k
    requires ResultsInUnit(s.attempt.results) && Scoring.InUnit(result.score)
    ensures FaithfulRun(rule, suite, s, Turn(k, result, j))
  {
    var latest := s.attempt.results[suite[k].id := result];
    assert ResultsInUnit(latest);
    j :| rule(latest, j);
    FaithfulReading(rule, suite, s, k, result, j);
    ReadingRuns(suite, s, k, result, j);
    ReaderCompletes(suite, s, k, result, j);
    var r := WithReader(s, k, result, HaveResults(s.attempt.results));
    assert LatestOf(suite, r.workers[k]) == latest;
    assert FaithfulRun(rule, suite, r, [Step(k, Proceed(j))]);
    FaithfulConcat(rule, suite, s, Reading(k, result, j), [Step(k, Proceed(j))]);
  }

  /** The serial run up to session `k`. */
  ghost predicate SerialUpTo(rule: Rule, suite: seq<Session>, results: seq<Evidence>, actions: seq<Action>, k: nat)
    requires SuiteOk(suite) && k <= |suite| == |results|
  {
    && FaithfulRun(rule, suite, InitialState(suite), actions)
    && Run(suite, InitialState(suite), actions).Some?
    && var s := Run(suite, InitialState(suite), actions).value;
       && Inv(suite, s, k) && |s.workers| == k
       && (s.attempt.status.Running? <==> k < |suite|)
       && ResultsInUnit(s.attempt.results)
       && forall i :: 0 <= i < k ==> suite[i].id in s.attempt.results && s.attempt.results[suite[i].id] == results[i]
  }

  lemma SerialTurn(rule: Rule, suite: seq<Session>, results: seq<Evidence>, actions: seq<Action>, k: nat)
    returns (more: seq<Action>)
    requires Judges(rule) && SuiteOk(suite) && k < |suite| == |results|
    requires SerialUpTo(rule, suite, results, actions, k) && Scoring.InUnit(results[k].score)
    ensures SerialUpTo(rule, suite, results, actions + more, k + 1)
  {
    var s := Run(suite, InitialState(suite), actions).value;
    var j := FaithfulTurn(rule, suite, s, k, results[k]);
    more := Turn(k, results[k], j);
    TurnCompletes(suite, s, k, results[k], j);
    RunConcat(suite, InitialState(suite), actions, more);
    FaithfulConcat(rule, suite, InitialState(suite), actions, more);
  }

  /** From creation, any list of results with scores in [0,1] can be completed in
      order, every completion being judged by the rule. */
  lemma SerialCompletionsFollow(rule: Rule, suite: seq<Session>, results: seq<Evidence>) returns (actions: seq<Action>)
    requires Judges(rule) && SuiteOk(suite) && |results| == |suite|
    requires forall i :: 0 <= i < |results| ==> Scoring.InUnit(results[i].score)
    ensures SerialUpTo(rule, suite, results, actions, |suite|)
  {
    InitialInv(suite);
    actions := [];
    for k := 0 to |suite|
      invariant SerialUpTo(rule, suite, results, actions, k)
    {
      var more := SerialTurn(rule, suite, results, actions, k);
      actions := actions + more;
    }
  }

  // The rule of the source -------------------------------------------------------------------

  ghost predicate EvaluatesTo(manifest: Manifest, suite: seq<Session>, latest: map<string, Evidence>,
                              t: Telemetry, j: Judgement)
  {
    && TelemetryOk(t)
    && Evaluate(manifest, suite, latest, t).Ok?
    && j == JudgementOf(t, Evaluate(manifest, suite, latest, t).value)
  }

  /** A judgement is the evaluation of the results with whatever telemetry was read. */
  ghost function Evaluating(manifest: Manifest, suite: seq<Session>): Rule {
    (latest: map<string, Evidence>, j: Judgement) => exists t :: EvaluatesTo(manifest, suite, latest, t, j)
  }

  lemma {:induction false} EvaluatedSessionsOk(suite: seq<Session>, latest: map<string, Evidence>, t: Telemetry)
    requires forall i, j :: 0 <= i < j < |suite| ==> suite[i].id != suite[j].id
    requires ResultsInUnit(latest)
    ensures var sessions := EvaluatedSessions(suite, latest, t);
      && Evaluations.SessionsOk(sessions)
      && forall n :: 0 <= n < |sessions| ==> exists i :: 0 <= i < |suite| && suite[i].id == sessions[n].id
  {
    if suite != [] {
      var last := |suite| - 1;
      EvaluatedSessionsOk(suite[..last], latest, t);
      var before := EvaluatedSessions(suite[..last], latest, t);
      var sessions := EvaluatedSessions(suite, latest, t);
      forall n | 0 <= n < |sessions|
        ensures Evaluations.SessionOk(sessions[n])
        ensures exists i :: 0 <= i < |suite| && suite[i].id == sessions[n].id
        ensures n < |before| ==> sessions[n].id != suite[last].id
      {
        if n < |before| {
          assert sessions[n] == before[n];
          var i :| 0 <= i < |suite[..last]| && suite[..last][i].id == before[n].id;
          assert suite[i].id == sessions[n].id;
        } else {
          assert suite[last].id == sessions[n].id;
        }
      }
    }
  }

  /** For a published manifest the evaluation of any results throws nothing, and
      the suite score it leads to stays in [0,1]. */
  lemma EvaluationSucceeds(manifest: Manifest, suite: seq<Session>, latest: map<string, Evidence>, t: Telemetry)
    requires SuiteManifest.Accepted(manifest) && SuiteOk(suite) && ResultsInUnit(latest) && TelemetryOk(t)
    ensures Evaluate(manifest, suite, latest, t).Ok?
    ensures Scoring.InUnit(Judge(suite, latest, JudgementOf(t, Evaluate(manifest, suite, latest, t).value)).score)
  {
    EvaluatedSessionsOk(suite, latest, t);
    Evaluations.EvaluationNeverThrows(manifest, EvaluatedSessions(suite, latest, t));
    var j := JudgementOf(t, Evaluate(manifest, suite, latest, t).value);
    var scores := SuiteSessions(suite, latest);
    assert forall i :: 0 <= i < |scores| ==> Scoring.InUnit(scores[i].score);
    SuiteScoreInUnit(scores, j.checks, j.capabilities, j.scenario);
  }

  /** In every reachable state, no worker about to complete a session can be
      stopped by the evaluation, whatever telemetry it reads. */
  lemma NoCompletionThrows(manifest: Manifest, suite: seq<Session>, actions: seq<Action>, i: nat, t: Telemetry)
    requires SuiteManifest.Accepted(manifest) && SuiteOk(suite) && TelemetryOk(t)
    requires FaithfulRun(Evaluating(manifest, suite), suite, InitialState(suite), actions)
    ensures Run(suite, InitialState(suite), actions).Some?
    ensures var s := Run(suite, InitialState(suite), actions).value;
      i < |s.workers| && s.workers[i].pc.HaveResults? ==>
        Evaluate(manifest, suite, LatestOf(suite, s.workers[i]), t).Ok?
  {
    AggregateFollowsRule(Evaluating(manifest, suite), suite, actions);
    var s := Run(suite, InitialState(suite), actions).value;
    if i < |s.workers| && s.workers[i].pc.HaveResults? {
      assert WorkerInUnit(s.workers[i]);
      EvaluationSucceeds(manifest, suite, LatestOf(suite, s.workers[i]), t);
    }
  }

  /** Once all sessions have results, the attempt carries the evaluation of exactly
      the persisted results, and its score is in [0,1]. */
  lemma AggregateEvaluatesThePersistedResults(manifest: Manifest, suite: seq<Session>, actions: seq<Action>)
    requires SuiteManifest.Accepted(manifest) && SuiteOk(suite)
    requires FaithfulRun(Evaluating(manifest, suite), suite, InitialState(suite), actions)
    ensures Run(suite, InitialState(suite), actions).Some?
    ensures var a := Run(suite, InitialState(suite), actions).value.attempt;
      AllHaveResults(suite, a) ==> exists t, j ::
        && EvaluatesTo(manifest, suite, a.results, t, j)
        && a.score == Some(Aggregated(Judge(suite, a.results, j)))
        && Scoring.InUnit(a.score.value.result.score)
  {
    AggregateFollowsRule(Evaluating(manifest, suite), suite, actions);
    var a := Run(suite, InitialState(suite), actions).value.attempt;
    if AllHaveResults(suite, a) {
      var j :| JudgedBy(Evaluating(manifest, suite), suite, a, j);
      var t :| EvaluatesTo(manifest, suite, a.results, t, j);
      EvaluationSucceeds(manifest, suite, a.results, t);
    }
  }

  /** From creation, any list of results with scores in [0,1] can be completed in
      order, with the evaluation of these results at the end. */
  lemma SerialCompletionsAreEvaluated(manifest: Manifest, suite: seq<Session>, results: seq<Evidence>)
    returns (actions: seq<Action>)
    requires SuiteManifest.Accepted(manifest) && SuiteOk(suite) && |results| == |suite|
    requires forall i :: 0 <= i < |results| ==> Scoring.InUnit(results[i].score)
    ensures SerialUpTo(Evaluating(manifest, suite), suite, results, actions, |suite|)
  {
    var t := Telemetry([], map[], map[], map[]);
    forall latest | ResultsInUnit(latest)
      ensures exists j :: Evaluating(manifest, suite)(latest, j)
    {
      EvaluationSucceeds(manifest, suite, latest, t);
      assert EvaluatesTo(manifest, suite, latest, t, JudgementOf(t, Evaluate(manifest, suite, latest, t).value));
      assert Evaluating(manifest, suite)(latest, JudgementOf(t, Evaluate(manifest, suite, latest, t).value));
    }
    actions := SerialCompletionsFollow(Evaluating(manifest, suite), suite, results);
  }
}
