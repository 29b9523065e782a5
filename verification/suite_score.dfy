/** The suite result: required sessions, consistency checks, capabilities and
    the scenario graph combined into one status and one score. */
module SuiteScore {
  import opened Collections
  import opened Scoring
  import Rounding
  import Verdicts = ScenarioVerdict

  datatype SessionScore = SessionScore(
    sessionId: string,
    app: string,
    taskSlug: string,
    status: Status,
    score: real,
    weight: real,
    required: bool)

  datatype CheckResult = CheckResult(name: string, passed: bool, score: real, weight: real, required: bool)

  datatype SuiteResult = SuiteResult(score: real, status: Status, sessions: seq<SessionScore>)

  function RequiredSessions(sessions: seq<SessionScore>): seq<Status> {
    if sessions == [] then []
    else (if sessions[0].required then [sessions[0].status] else []) + RequiredSessions(sessions[1..])
  }

  predicate RequiredChecksPassed(checks: seq<CheckResult>) {
    forall i :: 0 <= i < |checks| && checks[i].required ==> checks[i].passed
  }

  function WeightedParts(sessions: seq<SessionScore>, checks: seq<CheckResult>): seq<Weighted> {
    seq(|sessions|, i requires 0 <= i < |sessions| => Weighted(sessions[i].score, sessions[i].weight))
    + seq(|checks|, i requires 0 <= i < |checks| => Weighted(checks[i].score, checks[i].weight))
  }

  function AggregateSuiteScore(sessions: seq<SessionScore>, checks: seq<CheckResult>,
                               capabilities: Option<Breakdown>, scenario: Option<Verdicts.PublicEvaluation>): SuiteResult
  {
    var required := RequiredSessions(sessions);
    var requiredPassed :=
      && AllPassed(required)
      && RequiredChecksPassed(checks)
      && (capabilities.Some? ==> capabilities.value.status.Passed?)
      && (scenario.Some? ==> scenario.value.status.Passed?);
    var hasError :=
      || AnyError(required)
      || (capabilities.Some? && capabilities.value.status.Errored?)
      || (scenario.Some? && scenario.value.status.Errored?);
    SuiteResult(
      if capabilities.Some? then capabilities.value.score
      else Rounding.Rounded(Mean(WeightedParts(sessions, checks))),
      if hasError then Errored else if requiredPassed then Passed else Failed,
      sessions)
  }

  /** A passed suite vouches for every required part, and a suite errs only for
      a part that erred. */
  lemma SuiteStatusMeaning(sessions: seq<SessionScore>, checks: seq<CheckResult>,
                           capabilities: Option<Breakdown>, scenario: Option<Verdicts.PublicEvaluation>)
    ensures var r := AggregateSuiteScore(sessions, checks, capabilities, scenario);
      && (r.status == Passed <==>
           && (forall i :: 0 <= i < |sessions| && sessions[i].required ==> sessions[i].status == Passed)
           && (forall i :: 0 <= i < |checks| && checks[i].required ==> checks[i].passed)
           && (capabilities.Some? ==> capabilities.value.status == Passed)
           && (scenario.Some? ==> scenario.value.status == Passed))
      && (r.status == Errored <==>
           || (exists i :: 0 <= i < |sessions| && sessions[i].required && sessions[i].status == Errored)
           || (capabilities.Some? && capabilities.value.status == Errored)
           || (scenario.Some? && scenario.value.status == Errored))
  {
    RequiredSessionsMeaning(sessions);
  }

  /** Of a breakdown the suite status sees only the breakdown's status. */
  lemma SuiteStatusSeesStatusOnly(sessions: seq<SessionScore>, checks: seq<CheckResult>,
                                  b: Breakdown, c: Breakdown, scenario: Option<Verdicts.PublicEvaluation>)
    requires b.status == c.status
    ensures AggregateSuiteScore(sessions, checks, Some(b), scenario).status
      == AggregateSuiteScore(sessions, checks, Some(c), scenario).status
  {
  }

  lemma {:induction false} RequiredSessionsMeaning(sessions: seq<SessionScore>)
    ensures AllPassed(RequiredSessions(sessions)) <==>
      forall i :: 0 <= i < |sessions| && sessions[i].required ==> sessions[i].status == Passed
    ensures AnyError(RequiredSessions(sessions)) <==>
      exists i :: 0 <= i < |sessions| && sessions[i].required && sessions[i].status == Errored
  {
    if sessions != [] {
      var rest := sessions[1..];
      var first := if sessions[0].required then [sessions[0].status] else [];
      RequiredSessionsMeaning(rest);
      assert forall i :: 0 <= i < |rest| ==> rest[i] == sessions[i + 1];
      StatusesConcat(first, RequiredSessions(rest));
      assert RequiredSessions(sessions) == first + RequiredSessions(rest);
      if exists i :: 0 <= i < |rest| && rest[i].required && rest[i].status == Errored {
        var i :| 0 <= i < |rest| && rest[i].required && rest[i].status == Errored;
        assert sessions[i + 1].required && sessions[i + 1].status == Errored;
      }
      if exists i :: 0 <= i < |sessions| && sessions[i].required && sessions[i].status == Errored {
        var i :| 0 <= i < |sessions| && sessions[i].required && sessions[i].status == Errored;
        if i > 0 {
          assert rest[i - 1].status == Errored;
        } else {
          assert first[0] == Errored;
        }
      }
    }
  }

  lemma StatusesConcat(a: seq<Status>, b: seq<Status>)
    ensures AllPassed(a + b) <==> AllPassed(a) && AllPassed(b)
    ensures AnyError(a + b) <==> AnyError(a) || AnyError(b)
  {
    var c := a + b;
    assert forall i :: 0 <= i < |a| ==> c[i] == a[i];
    assert forall i :: 0 <= i < |b| ==> c[|a| + i] == b[i];
    if AllPassed(c) {
      forall i | 0 <= i < |b|
        ensures b[i] == Passed
      {
        assert c[|a| + i] == Passed;
      }
    }
    if AnyError(b) {
      var i :| 0 <= i < |b| && b[i] == Errored;
      assert c[|a| + i] == Errored;
    }
  }

  /** The parts that weigh in: every session, then every check. */
  function PartAt(sessions: seq<SessionScore>, checks: seq<CheckResult>, i: nat): Weighted
    requires i < |sessions| + |checks|
  {
    if i < |sessions| then Weighted(sessions[i].score, sessions[i].weight)
    else Weighted(checks[i - |sessions|].score, checks[i - |sessions|].weight)
  }

  function PartsInOrder(sessions: seq<SessionScore>, checks: seq<CheckResult>): seq<Weighted> {
    seq(|sessions| + |checks|, i requires 0 <= i < |sessions| + |checks| => PartAt(sessions, checks, i))
  }

  /** The score is that of the capabilities, if there are any, and otherwise the
      rounded mean over sessions and checks together. */
  lemma SuiteScoreMeaning(sessions: seq<SessionScore>, checks: seq<CheckResult>,
                          capabilities: Option<Breakdown>, scenario: Option<Verdicts.PublicEvaluation>)
    ensures var r := AggregateSuiteScore(sessions, checks, capabilities, scenario);
      && r.sessions == sessions
      && (capabilities.Some? ==> r.score == capabilities.value.score)
      && (capabilities.None? ==> r.score == Rounding.Rounded(Mean(PartsInOrder(sessions, checks))))
  {
    assert WeightedParts(sessions, checks) == PartsInOrder(sessions, checks);
  }

  /** Without capabilities the suite score is a weighted mean within [0,1]. */
  lemma SuiteScoreInUnit(sessions: seq<SessionScore>, checks: seq<CheckResult>,
                         capabilities: Option<Breakdown>, scenario: Option<Verdicts.PublicEvaluation>)
    requires forall i :: 0 <= i < |sessions| ==> InUnit(sessions[i].score)
    requires forall i :: 0 <= i < |checks| ==> InUnit(checks[i].score)
    requires capabilities.Some? ==> InUnit(capabilities.value.score)
    ensures InUnit(AggregateSuiteScore(sessions, checks, capabilities, scenario).score)
  {
    MeanInUnit(WeightedParts(sessions, checks));
    Rounding.RoundedKeepsUnitInterval(Mean(WeightedParts(sessions, checks)));
  }
}
