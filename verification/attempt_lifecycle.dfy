/** Session-by-session progress of a hosted attempt. Any number of workers
    finalize sessions concurrently, one step per await; the Postgres routines
    that complete a session, time the attempt out or cancel it are atomic, since
    each first locks the attempt row. */
module AttemptLifecycle {
  import opened Collections
  import opened SuiteScore
  import CapabilityAggregation
  import Scoring
  import Verdicts = ScenarioVerdict

  datatype AttemptStatus = Running | Completed | Failed | TimedOut | Cancelled

  datatype SessionStatus = Created | Active | Scoring | Completed | Failed | Expired | Cancelled

  /** A session row's fixed part; its sequence index is its position. */
  datatype Session = Session(id: string, app: string, taskSlug: string, weight: real, required: bool)

  /** The evaluated result of one session. */
  datatype Evidence = Evidence(status: Scoring.Status, score: real, evaluators: seq<CapabilityAggregation.Evaluator>)

  /** What the evaluators and checks say at the last completion. */
  datatype Judgement = Judgement(
    checks: seq<CheckResult>,
    capabilities: Option<Scoring.Breakdown>,
    scenario: Option<Verdicts.PublicEvaluation>)

  datatype ScoreRow = Aggregated(result: SuiteResult) | TimeoutScore

  datatype Attempt = Attempt(
    status: AttemptStatus,
    active: Option<string>,
    activeIndex: Option<nat>,
    completedIds: seq<string>,
    sessions: seq<SessionStatus>,
    results: map<string, Evidence>,
    score: Option<ScoreRow>)

  ghost predicate SuiteOk(suite: seq<Session>) {
    && suite != []
    && (forall i :: 0 <= i < |suite| ==> suite[i].id != "")
    && (forall i, j :: 0 <= i < j < |suite| ==> suite[i].id != suite[j].id)
  }

  function Ids(suite: seq<Session>, n: nat): seq<string>
    requires n <= |suite|
  {
    seq(n, i requires 0 <= i < n => suite[i].id)
  }

  function PositionOf(suite: seq<Session>, id: string): (found: Option<nat>)
    ensures found.Some? ==> found.value < |suite| && suite[found.value].id == id
    ensures found.None? ==> forall i :: 0 <= i < |suite| ==> suite[i].id != id
  {
    var p := (i: nat) => i < |suite| && suite[i].id == id;
    assert forall i: nat :: i < |suite| ==> p(i) == (suite[i].id == id);
    First(p, 0, |suite|)
  }

  /** The rows `createAttemptWithSessions` inserts in one transaction. */
  function InitialAttempt(suite: seq<Session>): Attempt
    requires suite != []
  {
    Attempt(Running, Some(suite[0].id), Some(0), [],
      seq(|suite|, i => if i > 0 then SessionStatus.Created else SessionStatus.Active), map[], None)
  }

  // The update a worker computes -----------------------------------------------------

  datatype AttemptUpdate = AttemptUpdate(
    complete: bool,
    status: AttemptStatus,
    aggregate: Option<SuiteResult>,
    active: Option<string>,
    activeIndex: Option<nat>,
    completedIds: seq<string>,
    nextSessionId: Option<string>)

  function ScoreOf(session: Session, latest: map<string, Evidence>): SessionScore {
    var e := if session.id in latest then latest[session.id] else Evidence(Scoring.Failed, 0.0, []);
    SessionScore(session.id, session.app, session.taskSlug, e.status, e.score, session.weight, session.required)
  }

  function SuiteSessions(suite: seq<Session>, latest: map<string, Evidence>): seq<SessionScore> {
    seq(|suite|, i requires 0 <= i < |suite| => ScoreOf(suite[i], latest))
  }

  function Judge(suite: seq<Session>, latest: map<string, Evidence>, j: Judgement): SuiteResult {
    AggregateSuiteScore(SuiteSessions(suite, latest), j.checks, j.capabilities, j.scenario)
  }

  function CompletedIds(suite: seq<Session>, latest: map<string, Evidence>, n: nat): seq<string>
    requires n <= |suite|
  {
    if n == 0 then []
    else CompletedIds(suite, latest, n - 1) + if suite[n - 1].id in latest then [suite[n - 1].id] else []
  }

  function NextPending(suite: seq<Session>, own: string, latest: map<string, Evidence>): (next: Option<nat>)
    ensures next.Some? ==> next.value < |suite|
  {
    var other := First((i: nat) => i < |suite| && suite[i].id !in latest && suite[i].id != own, 0, |suite|);
    if other.Some? then other else First((i: nat) => i < |suite| && suite[i].id !in latest, 0, |suite|)
  }

  function BuildUpdate(suite: seq<Session>, own: string, result: Evidence,
                       rows: map<string, Evidence>, j: Judgement): AttemptUpdate
  {
    var latest := rows[own := result];
    var next := NextPending(suite, own, latest);
    var nextId := if next.Some? then Some(suite[next.value].id) else None;
    if exists i :: 0 <= i < |suite| && suite[i].id !in latest then
      AttemptUpdate(false, Running, None, nextId, next, CompletedIds(suite, latest, |suite|), nextId)
    else
      var aggregate := Judge(suite, latest, j);
      AttemptUpdate(true,
        if aggregate.status.Errored? then AttemptStatus.Failed else AttemptStatus.Completed,
        Some(aggregate), None, None, Ids(suite, |suite|), nextId)
  }

  datatype ResultRow = ResultRow(sessionId: string, evidence: Evidence)

  function Latest(rows: seq<ResultRow>): map<string, Evidence> {
    if rows == [] then map[]
    else Latest(rows[..|rows| - 1])[rows[|rows| - 1].sessionId := rows[|rows| - 1].evidence]
  }

  /** The maps and lists `completePersistedSession` fills from the rows it read. */
  method BuildAttemptUpdate(suite: seq<Session>, own: string, result: Evidence, rows: seq<ResultRow>, j: Judgement)
    returns (update: AttemptUpdate)
    ensures update == BuildUpdate(suite, own, result, Latest(rows), j)
  {
    var latest: map<string, Evidence> := map[];
    for n := 0 to |rows|
      invariant latest == Latest(rows[..n])
    {
      latest := latest[rows[n].sessionId := rows[n].evidence];
      assert rows[..n + 1][..n] == rows[..n];
    }
    assert rows[..|rows|] == rows;
    latest := latest[own := result];
    var completedIds: seq<string> := [];
    var pending := false;
    for n := 0 to |suite|
      invariant completedIds == CompletedIds(suite, latest, n)
      invariant pending <==> exists i :: 0 <= i < n && suite[i].id !in latest
    {
      if suite[n].id in latest {
        completedIds := completedIds + [suite[n].id];
      } else {
        pending := true;
      }
    }
    var next := NextPending(suite, own, latest);
    var nextId := if next.Some? then Some(suite[next.value].id) else None;
    if pending {
      update := AttemptUpdate(false, Running, None, nextId, next, completedIds, nextId);
    } else {
      var aggregate := Judge(suite, latest, j);
      var status := if aggregate.status.Errored? then AttemptStatus.Failed else AttemptStatus.Completed;
      update := AttemptUpdate(true, status, Some(aggregate), None, None, Ids(suite, |suite|), nextId);
    }
  }

  // The database routines ------------------------------------------------------------

  datatype Reply =
    | Persisted(result: Evidence, duplicate: bool, aggregate: Option<ScoreRow>)
    | Conflict
    | Raised

  function StatusFor(e: Evidence): SessionStatus {
    if e.status.Passed? then SessionStatus.Completed else SessionStatus.Failed
  }

  predicate Open(status: SessionStatus) {
    status.Created? || status.Active? || status.Scoring?
  }

  /** `complete_hosted_attempt_session`; raising rolls everything back. */
  function SqlComplete(suite: seq<Session>, a: Attempt, id: string, result: Evidence, u: AttemptUpdate): (r: (Attempt, Reply))
    requires |a.sessions| == |suite|
    ensures |r.0.sessions| == |suite|
  {
    var p := PositionOf(suite, id);
    if id in a.results then (a, Persisted(a.results[id], true, a.score))
    else if a.status != Running then (a, Conflict)
    else if id == "" || a.active != Some(id) then (a, Conflict)
    else if p.None? || !(a.sessions[p.value].Active? || a.sessions[p.value].Scoring?) then (a, Conflict)
    else
      var scored := a.(results := a.results[id := result], sessions := a.sessions[p.value := StatusFor(result)]);
      if u.complete then
        if a.score.Some? || u.aggregate.None? then (a, Raised)
        else
          var row := Some(Aggregated(u.aggregate.value));
          (scored.(score := row, status := u.status, active := u.active, activeIndex := u.activeIndex,
                   completedIds := u.completedIds), Persisted(result, false, row))
      else
        var next := if u.nextSessionId.Some? then PositionOf(suite, u.nextSessionId.value) else None;
        if next.None? || !scored.sessions[next.value].Created? then (a, Raised)
        else
          (scored.(status := Running, sessions := scored.sessions[next.value := SessionStatus.Active],
                   active := u.active, activeIndex := u.activeIndex, completedIds := u.completedIds),
           Persisted(result, false, None))
  }

  function Close(sessions: seq<SessionStatus>, closed: SessionStatus): seq<SessionStatus> {
    seq(|sessions|, i requires 0 <= i < |sessions| => if Open(sessions[i]) then closed else sessions[i])
  }

  /** `timeout_hosted_attempt`: the score row is inserted `on conflict do nothing`. */
  function SqlTimeout(a: Attempt): (t: Attempt)
    ensures |t.sessions| == |a.sessions|
  {
    if a.status != Running then a
    else a.(status := TimedOut, active := None, activeIndex := None, sessions := Close(a.sessions, Expired),
            score := if a.score.Some? then a.score else Some(TimeoutScore))
  }

  /** `cancel_hosted_attempt`. */
  function SqlCancel(a: Attempt): (t: Attempt)
    ensures |t.sessions| == |a.sessions|
  {
    if a.status != Running then a
    else a.(status := AttemptStatus.Cancelled, active := None, activeIndex := None,
            sessions := Close(a.sessions, SessionStatus.Cancelled))
  }

  // The workers ---------------------------------------------------------------------------

  datatype Response = Response(result: Evidence, duplicate: bool, aggregate: Option<ScoreRow>)

  datatype Pc =
    | Begin
    | LoadExisting
    | Guarded
    | HaveResults(rows: map<string, Evidence>)
    | Done(response: Response)
    | Threw

  datatype Worker = Worker(session: nat, result: Evidence, pc: Pc)

  datatype State = State(attempt: Attempt, workers: seq<Worker>)

  /** `Proceed` carries what is evaluated in the step; `SeesFinished` is a worker
      whose copy of the session already says completed or failed. */
  datatype Choice = Proceed(j: Judgement) | SeesFinished | Throws

  datatype Action =
    | Arrive(session: nat, result: Evidence)
    | Step(worker: nat, choice: Choice)
    | Timeout
    | Cancel

  function At(s: State, w: nat, pc: Pc): State
    requires w < |s.workers|
  {
    s.(workers := s.workers[w := s.workers[w].(pc := pc)])
  }

  predicate Ended(pc: Pc) {
    pc.Done? || pc.Threw?
  }

  predicate WellFormed(suite: seq<Session>, s: State) {
    && |s.attempt.sessions| == |suite|
    && forall i :: 0 <= i < |s.workers| ==> s.workers[i].session < |suite|
  }

  function Take(suite: seq<Session>, s: State, i: nat, c: Choice): (next: Option<State>)
    requires WellFormed(suite, s) && i < |s.workers|
    ensures next.Some? ==> WellFormed(suite, next.value)
  {
    var w := s.workers[i];
    var id := suite[w.session].id;
    if Ended(w.pc) then None
    else
      match (w.pc, c)
      case (_, Throws) => Some(At(s, i, Threw))
      case (Begin, SeesFinished) =>
        if id in s.attempt.results then Some(At(s, i, LoadExisting)) else None
      case (Begin, Proceed(_)) =>
        var active := s.attempt.active;
        Some(At(s, i, if active.Some? && active.value != "" && active.value != id then Threw else Guarded))
      case (LoadExisting, Proceed(_)) =>
        var result := if id in s.attempt.results then s.attempt.results[id] else w.result;
        Some(At(s, i, Done(Response(result, true, None))))
      case (Guarded, Proceed(_)) => Some(At(s, i, HaveResults(s.attempt.results)))
      case (HaveResults(rows), Proceed(j)) =>
        var (a, reply) := SqlComplete(suite, s.attempt, id, w.result, BuildUpdate(suite, id, w.result, rows, j));
        Some(At(s.(attempt := a), i,
          match reply
          case Persisted(result, duplicate, aggregate) => Done(Response(result, duplicate, aggregate))
          case _ => Threw))
      case _ => None
  }

  function Next(suite: seq<Session>, s: State, a: Action): (next: Option<State>)
    requires WellFormed(suite, s)
    ensures next.Some? ==> WellFormed(suite, next.value)
  {
    match a
    case Arrive(session, result) =>
      if session < |suite| then Some(s.(workers := s.workers + [Worker(session, result, Begin)])) else None
    case Step(i, c) => if i < |s.workers| then Take(suite, s, i, c) else None
    case Timeout => Some(s.(attempt := SqlTimeout(s.attempt)))
    case Cancel => Some(s.(attempt := SqlCancel(s.attempt)))
  }

  function Run(suite: seq<Session>, s: State, actions: seq<Action>): (end: Option<State>)
    requires WellFormed(suite, s)
    ensures end.Some? ==> WellFormed(suite, end.value)
    decreases |actions|
  {
    if actions == [] then Some(s)
    else
      var next := Next(suite, s, actions[0]);
      if next.None? then None else Run(suite, next.value, actions[1..])
  }

  function InitialState(suite: seq<Session>): State
    requires suite != []
  {
    State(InitialAttempt(suite), [])
  }

  // The read model ---------------------------------------------------------------------------

  /** `buildHostedAttemptReadModel` and `resolveAdvance`: metadata and session rows
      come from two concurrent queries, so from two states of the attempt. */
  datatype Advance = Invalid | Complete | NextSession(index: nat)

  function ActiveIn(suite: seq<Session>, metadata: Attempt, rows: Attempt): (found: Option<nat>)
    requires |rows.sessions| == |suite|
    ensures found.Some? ==> found.value < |suite|
  {
    var byId := if metadata.active.Some? then PositionOf(suite, metadata.active.value) else None;
    var active := First((i: nat) => i < |suite| && rows.sessions[i].Active?, 0, |suite|);
    if byId.Some? then byId
    else if metadata.activeIndex.Some? && metadata.activeIndex.value < |suite| then metadata.activeIndex
    else if active.Some? then active
    else First((i: nat) => i < |suite| && (rows.sessions[i].Created? || rows.sessions[i].Scoring?), 0, |suite|)
  }

  function ResolveAdvance(suite: seq<Session>, metadata: Attempt, rows: Attempt, current: string): Advance
    requires |rows.sessions| == |suite|
  {
    if PositionOf(suite, current).None? then Invalid
    else
      var active := ActiveIn(suite, metadata, rows);
      if active.None? then Complete else NextSession(active.value)
  }
}
