/** What holds of a hosted attempt after any interleaving of completions,
    timeouts and cancellations. */
module AttemptGuarantees {
  import opened Collections
  import opened SuiteScore
  import opened AttemptLifecycle
  import Scoring

  // The invariant ----------------------------------------------------------------------

  /** Exactly the first `k` sessions have a result. */
  ghost predicate ResultsOf(suite: seq<Session>, results: map<string, Evidence>, k: nat) {
    forall i :: 0 <= i < |suite| ==> (suite[i].id in results <==> i < k)
  }

  ghost predicate FinishedUpTo(suite: seq<Session>, a: Attempt, k: nat)
    requires k <= |suite| == |a.sessions|
  {
    forall i :: 0 <= i < k ==> suite[i].id in a.results && a.sessions[i] == StatusFor(a.results[suite[i].id])
  }

  predicate RestIs(a: Attempt, from: nat, status: SessionStatus) {
    forall i :: from <= i < |a.sessions| ==> a.sessions[i] == status
  }

  /** The aggregate judges exactly the persisted results. */
  ghost predicate Judged(suite: seq<Session>, results: map<string, Evidence>, r: SuiteResult) {
    exists j: Judgement :: r == Judge(suite, results, j)
  }

  predicate NoPointer(a: Attempt) {
    a.active.None? && a.activeIndex.None?
  }

  ghost predicate Scored(suite: seq<Session>, a: Attempt) {
    && a.score.Some? && a.score.value.Aggregated?
    && Judged(suite, a.results, a.score.value.result)
    && (a.status.Failed? <==> a.score.value.result.status.Errored?)
  }

  ghost predicate PhaseOk(suite: seq<Session>, a: Attempt, k: nat)
    requires k <= |suite| == |a.sessions|
  {
    match a.status
    case Running =>
      && k < |suite| && a.active == Some(suite[k].id) && a.activeIndex == Some(k)
      && a.sessions[k] == SessionStatus.Active && RestIs(a, k + 1, SessionStatus.Created)
      && a.score.None? && a.completedIds == Ids(suite, k)
    case TimedOut =>
      && k < |suite| && NoPointer(a) && RestIs(a, k, Expired)
      && a.score == Some(TimeoutScore) && a.completedIds == Ids(suite, k)
    case Cancelled =>
      && k < |suite| && NoPointer(a) && RestIs(a, k, SessionStatus.Cancelled)
      && a.score.None? && a.completedIds == Ids(suite, k)
    case _ => k == |suite| && NoPointer(a) && Scored(suite, a) && a.completedIds == Ids(suite, k)
  }

  /** The finished sessions are the first `k`, and the pointer is at session `k`. */
  ghost predicate Progress(suite: seq<Session>, a: Attempt, k: nat) {
    && k <= |suite| == |a.sessions|
    && ResultsOf(suite, a.results, k)
    && FinishedUpTo(suite, a, k)
    && PhaseOk(suite, a, k)
  }

  ghost predicate WorkerOk(suite: seq<Session>, a: Attempt, k: nat, w: Worker) {
    && w.session < |suite|
    && match w.pc
       case LoadExisting => w.session < k
       case Guarded => a.status.Running? ==> w.session <= k
       case HaveResults(rows) => a.status.Running? ==> w.session < k || (w.session == k && rows == a.results)
       case Done(r) =>
         && suite[w.session].id in a.results && r.result == a.results[suite[w.session].id]
         && (r.aggregate.Some? ==> r.aggregate == a.score)
       case _ => true
  }

  ghost predicate Inv(suite: seq<Session>, s: State, k: nat) {
    && Progress(suite, s.attempt, k)
    && forall i :: 0 <= i < |s.workers| ==> WorkerOk(suite, s.attempt, k, s.workers[i])
  }

  lemma InitialInv(suite: seq<Session>)
    requires SuiteOk(suite)
    ensures Inv(suite, InitialState(suite), 0)
  {
  }

  // The update at the active session --------------------------------------------------------

  lemma PositionOfSession(suite: seq<Session>, k: nat)
    requires SuiteOk(suite) && k < |suite|
    ensures PositionOf(suite, suite[k].id) == Some(k)
  {
    var p := PositionOf(suite, suite[k].id);
    assert p.Some?;
    var i := p.value;
    assert suite[i].id == suite[k].id;
  }

  lemma {:induction false} CompletedIdsArePrefix(suite: seq<Session>, latest: map<string, Evidence>, k: nat, n: nat)
    requires n <= |suite| && k <= |suite| && ResultsOf(suite, latest, k)
    ensures CompletedIds(suite, latest, n) == Ids(suite, if n < k then n else k)
  {
    if n > 0 {
      CompletedIdsArePrefix(suite, latest, k, n - 1);
    }
  }

  lemma UpdateAtActive(suite: seq<Session>, k: nat, rows: map<string, Evidence>, result: Evidence, j: Judgement)
    requires SuiteOk(suite) && k < |suite| && ResultsOf(suite, rows, k)
    ensures var latest := rows[suite[k].id := result];
      && ResultsOf(suite, latest, k + 1)
      && var next := if k + 1 < |suite| then Some(suite[k + 1].id) else None;
         BuildUpdate(suite, suite[k].id, result, rows, j) ==
         if k + 1 < |suite| then
           AttemptUpdate(false, Running, None, next, Some(k + 1), Ids(suite, k + 1), next)
         else
           var r := Judge(suite, latest, j);
           AttemptUpdate(true, if r.status.Errored? then AttemptStatus.Failed else AttemptStatus.Completed,
             Some(r), None, None, Ids(suite, |suite|), None)
  {
    var latest := rows[suite[k].id := result];
    assert ResultsOf(suite, latest, k + 1);
    NextPendingIsFirstMissing(suite, suite[k].id, latest, k + 1);
    if k + 1 < |suite| {
      CompletedIdsArePrefix(suite, latest, k + 1, |suite|);
      assert suite[k + 1].id !in latest;
    }
  }

  lemma NextPendingIsFirstMissing(suite: seq<Session>, own: string, latest: map<string, Evidence>, k: nat)
    requires k <= |suite| && ResultsOf(suite, latest, k) && own in latest
    ensures NextPending(suite, own, latest) == if k < |suite| then Some(k) else None
  {
    var other := (i: nat) => i < |suite| && suite[i].id !in latest && suite[i].id != own;
    var missing := (i: nat) => i < |suite| && suite[i].id !in latest;
    assert forall i: nat :: i < |suite| ==> other(i) == (i >= k);
    assert forall i: nat :: i < |suite| ==> missing(i) == (i >= k);
    FirstFrom(other, k, |suite|);
    FirstFrom(missing, k, |suite|);
  }

  lemma FirstFrom(p: nat -> bool, k: nat, n: nat)
    requires k <= n && forall i: nat :: i < n ==> p(i) == (i >= k)
    ensures First(p, 0, n) == if k < n then Some(k) else None
  {
    var found := First(p, 0, n);
    if k < n {
      assert p(k);
      assert found.Some? && p(found.value);
    }
  }

  // One step ------------------------------------------------------------------------------

  lemma MiddleSessionCompletes(suite: seq<Session>, a: Attempt, k: nat, result: Evidence, j: Judgement)
    requires SuiteOk(suite) && Progress(suite, a, k) && a.status.Running? && k + 1 < |suite|
    ensures var id := suite[k].id;
      var (t, reply) := SqlComplete(suite, a, id, result, BuildUpdate(suite, id, result, a.results, j));
      && reply == Persisted(result, false, None) && t.score.None?
      && t.results == a.results[id := result]
      && Progress(suite, t, k + 1)
  {
    var id := suite[k].id;
    var u := BuildUpdate(suite, id, result, a.results, j);
    UpdateAtActive(suite, k, a.results, result, j);
    PositionOfSession(suite, k);
    PositionOfSession(suite, k + 1);
    FinishedAfter(suite, a, SqlComplete(suite, a, id, result, u).0, k, result);
  }

  lemma LastSessionCompletes(suite: seq<Session>, a: Attempt, k: nat, result: Evidence, j: Judgement)
    requires SuiteOk(suite) && Progress(suite, a, k) && a.status.Running? && k + 1 == |suite|
    ensures var id := suite[k].id;
      var (t, reply) := SqlComplete(suite, a, id, result, BuildUpdate(suite, id, result, a.results, j));
      && reply == Persisted(result, false, t.score)
      && t.score == Some(Aggregated(Judge(suite, t.results, j)))
      && t.results == a.results[id := result]
      && Progress(suite, t, k + 1)
  {
    var id := suite[k].id;
    var u := BuildUpdate(suite, id, result, a.results, j);
    UpdateAtActive(suite, k, a.results, result, j);
    PositionOfSession(suite, k);
    FinishedAfter(suite, a, SqlComplete(suite, a, id, result, u).0, k, result);
  }

  /** Completing the active session from a fresh snapshot is never a conflict, never
      raises, and yields the aggregate exactly when it was the last session. */
  lemma ActiveSessionCompletes(suite: seq<Session>, a: Attempt, k: nat, result: Evidence, j: Judgement)
    requires SuiteOk(suite) && Progress(suite, a, k) && a.status.Running?
    ensures var id := suite[k].id;
      var (t, reply) := SqlComplete(suite, a, id, result, BuildUpdate(suite, id, result, a.results, j));
      && reply == Persisted(result, false, t.score)
      && t.results == a.results[id := result]
      && Progress(suite, t, k + 1)
      && (t.score.Some? <==> k + 1 == |suite|)
      && (k + 1 == |suite| ==> t.score == Some(Aggregated(Judge(suite, t.results, j))))
  {
    if k + 1 < |suite| {
      MiddleSessionCompletes(suite, a, k, result, j);
    } else {
      LastSessionCompletes(suite, a, k, result, j);
    }
  }

  lemma FinishedAfter(suite: seq<Session>, a: Attempt, t: Attempt, k: nat, result: Evidence)
    requires SuiteOk(suite) && k < |suite| == |a.sessions| == |t.sessions| && FinishedUpTo(suite, a, k)
    requires t.results == a.results[suite[k].id := result] && t.sessions[k] == StatusFor(result)
    requires forall i :: 0 <= i < k ==> t.sessions[i] == a.sessions[i]
    ensures FinishedUpTo(suite, t, k + 1)
  {
  }

  /** Any other completion leaves the attempt as it is: it returns the persisted
      result or is refused. */
  lemma StaleCompletionIsRefused(suite: seq<Session>, a: Attempt, k: nat, x: nat, result: Evidence, u: AttemptUpdate)
    requires SuiteOk(suite) && Progress(suite, a, k) && x < |suite| && (a.status.Running? ==> x < k)
    ensures var (t, reply) := SqlComplete(suite, a, suite[x].id, result, u);
      && t == a
      && reply == if x < k then Persisted(a.results[suite[x].id], true, a.score) else Conflict
  {
  }

  lemma CloseEndsRest(suite: seq<Session>, a: Attempt, k: nat, closed: SessionStatus)
    requires SuiteOk(suite) && Progress(suite, a, k) && a.status.Running?
    ensures Close(a.sessions, closed)[..k] == a.sessions[..k]
    ensures forall i :: k <= i < |suite| ==> Close(a.sessions, closed)[i] == closed
  {
    assert forall i :: 0 <= i < k ==> a.sessions[i] == StatusFor(a.results[suite[i].id]);
  }

  lemma TimeoutKeepsProgress(suite: seq<Session>, a: Attempt, k: nat)
    requires SuiteOk(suite) && Progress(suite, a, k)
    ensures Progress(suite, SqlTimeout(a), k) && Progress(suite, SqlCancel(a), k)
  {
    if a.status.Running? {
      CloseEndsRest(suite, a, k, Expired);
      CloseEndsRest(suite, a, k, SessionStatus.Cancelled);
      assert forall i :: 0 <= i < k ==> a.sessions[..k][i] == a.sessions[i];
      assert forall i :: 0 <= i < k ==> Close(a.sessions, Expired)[i] == Close(a.sessions, Expired)[..k][i];
      assert forall i :: 0 <= i < k ==>
        Close(a.sessions, SessionStatus.Cancelled)[i] == Close(a.sessions, SessionStatus.Cancelled)[..k][i];
    }
  }

  /** An ended attempt never changes again, and a result is written once. */
  predicate Grows(a: Attempt, t: Attempt) {
    && (!a.status.Running? ==> t == a)
    && (forall id :: id in a.results ==> id in t.results && t.results[id] == a.results[id])
    && (a.score.Some? ==> t.score == a.score)
  }

  lemma WorkerStaysOk(suite: seq<Session>, a: Attempt, t: Attempt, k: nat, l: nat, w: Worker)
    requires WorkerOk(suite, a, k, w) && Grows(a, t)
    requires l == k + 1 || (l == k && (t == a || !t.status.Running?))
    ensures WorkerOk(suite, t, l, w)
  {
  }

  function Reached(suite: seq<Session>, s: State, i: nat, j: Judgement): (Attempt, Reply)
    requires WellFormed(suite, s) && i < |s.workers| && s.workers[i].pc.HaveResults?
  {
    var w := s.workers[i];
    var id := suite[w.session].id;
    SqlComplete(suite, s.attempt, id, w.result, BuildUpdate(suite, id, w.result, w.pc.rows, j))
  }

  /** What a worker's database call does in any reachable state: it completes the
      active session or changes nothing, and `cannot be promoted` is never raised. */
  lemma CompletionNeverRaises(suite: seq<Session>, s: State, k: nat, i: nat, j: Judgement)
    requires SuiteOk(suite) && Inv(suite, s, k) && WellFormed(suite, s)
    requires i < |s.workers| && s.workers[i].pc.HaveResults?
    ensures var (t, reply) := Reached(suite, s, i, j);
      && !reply.Raised?
      && Grows(s.attempt, t)
      && (reply.Persisted? ==>
           (suite[s.workers[i].session].id in t.results
            && t.results[suite[s.workers[i].session].id] == reply.result
            && reply.aggregate == t.score))
      && (if s.attempt.status.Running? && s.workers[i].session == k then
            reply.Persisted? && !reply.duplicate && Progress(suite, t, k + 1)
          else t == s.attempt)
  {
    var w := s.workers[i];
    assert WorkerOk(suite, s.attempt, k, w);
    if s.attempt.status.Running? && w.session == k {
      ActiveSessionCompletes(suite, s.attempt, k, w.result, j);
      assert suite[k].id !in s.attempt.results;
    } else {
      var id := suite[w.session].id;
      StaleCompletionIsRefused(suite, s.attempt, k, w.session, w.result, BuildUpdate(suite, id, w.result, w.pc.rows, j));
    }
  }

  /** What a step of one worker does to the state: it moves this worker only, and
      the attempt only by the database call. */
  lemma StepMovesOne(suite: seq<Session>, s: State, i: nat, c: Choice)
    requires WellFormed(suite, s) && i < |s.workers| && Take(suite, s, i, c).Some?
    ensures var t := Take(suite, s, i, c).value;
      && |t.workers| == |s.workers|
      && (forall n :: 0 <= n < |s.workers| && n != i ==> t.workers[n] == s.workers[n])
      && t.workers[i].result == s.workers[i].result
      && (t.workers[i].pc.HaveResults? ==> t.workers[i].pc.rows == s.attempt.results)
      && t.attempt == if c.Proceed? && s.workers[i].pc.HaveResults? then Reached(suite, s, i, c.j).0 else s.attempt
  {
  }

  predicate Completes(s: State, k: nat, i: nat, c: Choice)
    requires i < |s.workers|
  {
    c.Proceed? && s.workers[i].pc.HaveResults? && s.attempt.status.Running? && s.workers[i].session == k
  }

  lemma OwnWorkerStaysOk(suite: seq<Session>, s: State, k: nat, i: nat, c: Choice)
    requires SuiteOk(suite) && Inv(suite, s, k) && WellFormed(suite, s)
    requires i < |s.workers| && Take(suite, s, i, c).Some?
    ensures var t := Take(suite, s, i, c).value;
      WorkerOk(suite, t.attempt, if Completes(s, k, i, c) then k + 1 else k, t.workers[i])
  {
    var w := s.workers[i];
    assert WorkerOk(suite, s.attempt, k, w);
    if c.Proceed? && w.pc.HaveResults? {
      CompletionNeverRaises(suite, s, k, i, c.j);
    } else if c.Proceed? && w.pc.Begin? && s.attempt.status.Running? && suite[w.session].id == suite[k].id {
      PositionOfSession(suite, k);
      PositionOfSession(suite, w.session);
    }
  }

  lemma StepKeepsInv(suite: seq<Session>, s: State, k: nat, i: nat, c: Choice) returns (l: nat)
    requires SuiteOk(suite) && Inv(suite, s, k) && WellFormed(suite, s)
    requires i < |s.workers| && Take(suite, s, i, c).Some?
    ensures Inv(suite, Take(suite, s, i, c).value, l)
    ensures Grows(s.attempt, Take(suite, s, i, c).value.attempt)
  {
    var t := Take(suite, s, i, c).value;
    l := if Completes(s, k, i, c) then k + 1 else k;
    StepMovesOne(suite, s, i, c);
    OwnWorkerStaysOk(suite, s, k, i, c);
    if c.Proceed? && s.workers[i].pc.HaveResults? {
      CompletionNeverRaises(suite, s, k, i, c.j);
    }
    forall n | 0 <= n < |t.workers| && n != i
      ensures WorkerOk(suite, t.attempt, l, t.workers[n])
    {
      assert t.workers[n] == s.workers[n];
      WorkerStaysOk(suite, s.attempt, t.attempt, k, l, s.workers[n]);
    }
  }

  lemma NextKeepsInv(suite: seq<Session>, s: State, k: nat, a: Action) returns (l: nat)
    requires SuiteOk(suite) && Inv(suite, s, k) && WellFormed(suite, s) && Next(suite, s, a).Some?
    ensures Inv(suite, Next(suite, s, a).value, l)
    ensures Grows(s.attempt, Next(suite, s, a).value.attempt)
  {
    var t := Next(suite, s, a).value;
    l := k;
    if a.Step? {
      l := StepKeepsInv(suite, s, k, a.worker, a.choice);
    } else {
      TimeoutKeepsProgress(suite, s.attempt, k);
      forall n | 0 <= n < |t.workers|
        ensures WorkerOk(suite, t.attempt, k, t.workers[n])
      {
        if n < |s.workers| {
          assert t.workers[n] == s.workers[n];
          WorkerStaysOk(suite, s.attempt, t.attempt, k, k, s.workers[n]);
        }
      }
    }
  }

  lemma {:induction false} RunKeepsInv(suite: seq<Session>, s: State, k: nat, actions: seq<Action>) returns (l: nat)
    requires SuiteOk(suite) && Inv(suite, s, k) && WellFormed(suite, s) && Run(suite, s, actions).Some?
    ensures Inv(suite, Run(suite, s, actions).value, l)
    ensures Grows(s.attempt, Run(suite, s, actions).value.attempt)
    decreases |actions|
  {
    l := k;
    if actions != [] {
      var t := Next(suite, s, actions[0]).value;
      l := NextKeepsInv(suite, s, k, actions[0]);
      l := RunKeepsInv(suite, t, l, actions[1..]);
    }
  }

  // Guarantees ------------------------------------------------------------------------------

  ghost predicate AllHaveResults(suite: seq<Session>, a: Attempt) {
    forall i :: 0 <= i < |suite| ==> suite[i].id in a.results
  }

  /** Every entry of the aggregate is the persisted result of its own session. */
  ghost predicate RealResults(suite: seq<Session>, a: Attempt, r: SuiteResult) {
    && |r.sessions| == |suite|
    && forall i :: 0 <= i < |suite| ==>
      && suite[i].id in a.results
      && r.sessions[i] == SessionScore(suite[i].id, suite[i].app, suite[i].taskSlug,
           a.results[suite[i].id].status, a.results[suite[i].id].score, suite[i].weight, suite[i].required)
  }

  /** After any interleaving the finished sessions are a prefix of the sequence with
      the pointer at the next one; the aggregate appears exactly with the last
      result, is built from one real result per session, and decides the status. */
  lemma LifecycleIsSerial(suite: seq<Session>, actions: seq<Action>)
    requires SuiteOk(suite) && Run(suite, InitialState(suite), actions).Some?
    ensures var a := Run(suite, InitialState(suite), actions).value.attempt;
      && (exists k :: Progress(suite, a, k))
      && (forall i :: 0 <= i < |suite| && suite[i].id in a.results ==>
           a.sessions[i] == if a.results[suite[i].id].status == Scoring.Passed then SessionStatus.Completed else SessionStatus.Failed)
      && ((a.score.Some? && a.score.value.Aggregated?) <==> AllHaveResults(suite, a))
      && ((a.status.Completed? || a.status.Failed?) <==> AllHaveResults(suite, a))
      && (AllHaveResults(suite, a) ==> RealResults(suite, a, a.score.value.result))
  {
    InitialInv(suite);
    var k := RunKeepsInv(suite, InitialState(suite), 0, actions);
    var a := Run(suite, InitialState(suite), actions).value.attempt;
    assert Progress(suite, a, k);
    if k < |suite| {
      assert suite[k].id !in a.results;
    }
  }

  /** Whoever finishes a session is answered with the one persisted result. */
  lemma FinishedWorkersAgree(suite: seq<Session>, actions: seq<Action>, i: nat, j: nat)
    requires SuiteOk(suite) && Run(suite, InitialState(suite), actions).Some?
    ensures var s := Run(suite, InitialState(suite), actions).value;
      && (i < |s.workers| && s.workers[i].pc.Done? ==>
           suite[s.workers[i].session].id in s.attempt.results
           && s.workers[i].pc.response.result == s.attempt.results[suite[s.workers[i].session].id])
      && (i < |s.workers| && j < |s.workers| && s.workers[i].pc.Done? && s.workers[j].pc.Done?
          && s.workers[i].pc.response.aggregate.Some? && s.workers[j].pc.response.aggregate.Some? ==>
            s.workers[i].pc.response.aggregate == s.workers[j].pc.response.aggregate)
  {
    InitialInv(suite);
    var k := RunKeepsInv(suite, InitialState(suite), 0, actions);
    var s := Run(suite, InitialState(suite), actions).value;
    if i < |s.workers| {
      assert WorkerOk(suite, s.attempt, k, s.workers[i]);
    }
    if j < |s.workers| {
      assert WorkerOk(suite, s.attempt, k, s.workers[j]);
    }
  }

  /** Worker `i` is the one that was told its completion is no duplicate. */
  predicate CompletedFirst(suite: seq<Session>, s: State, i: nat, id: string) {
    && i < |s.workers| && s.workers[i].pc.Done? && !s.workers[i].pc.response.duplicate
    && s.workers[i].session < |suite| && suite[s.workers[i].session].id == id
  }

  ghost predicate OneFirst(suite: seq<Session>, s: State, id: string) {
    && (id in s.attempt.results <==> exists i :: CompletedFirst(suite, s, i, id))
    && (forall i, j :: CompletedFirst(suite, s, i, id) && CompletedFirst(suite, s, j, id) ==> i == j)
    && (forall i: nat :: CompletedFirst(suite, s, i, id) && id in s.attempt.results ==>
         s.workers[i].result == s.attempt.results[id])
  }

  /** A completion that is no duplicate adds the result it brings, and nothing else adds one. */
  lemma CompletionAddsItsResult(suite: seq<Session>, a: Attempt, id: string, result: Evidence, u: AttemptUpdate)
    requires |a.sessions| == |suite|
    ensures var (t, reply) := SqlComplete(suite, a, id, result, u);
      if reply.Persisted? && !reply.duplicate then id !in a.results && t.results == a.results[id := result]
      else t.results == a.results
  {
  }

  /** One step of worker `i` leaves everyone else's answers, and gives `i` the first
      answer exactly if it adds the result of its session. */
  ghost predicate AddsOwn(suite: seq<Session>, s: State, t: State, i: nat, id: string) {
    && (forall n: nat :: n != i ==> (CompletedFirst(suite, t, n, id) <==> CompletedFirst(suite, s, n, id)))
    && (forall n: nat :: n < |s.workers| ==> n < |t.workers| && t.workers[n].result == s.workers[n].result)
    && !CompletedFirst(suite, s, i, id)
    && (if CompletedFirst(suite, t, i, id) then
          id !in s.attempt.results && id in t.attempt.results && t.attempt.results[id] == t.workers[i].result
        else
          (id in t.attempt.results <==> id in s.attempt.results)
          && (id in s.attempt.results ==> t.attempt.results[id] == s.attempt.results[id]))
  }

  lemma AddingKeepsFirst(suite: seq<Session>, s: State, t: State, i: nat, id: string)
    requires OneFirst(suite, s, id) && AddsOwn(suite, s, t, i, id)
    ensures OneFirst(suite, t, id)
  {
    if n: nat :| CompletedFirst(suite, s, n, id) {
      assert CompletedFirst(suite, t, n, id);
    }
    forall n: nat | CompletedFirst(suite, t, n, id) && id in t.attempt.results
      ensures t.workers[n].result == t.attempt.results[id]
    {
      assert n != i ==> CompletedFirst(suite, s, n, id);
    }
  }

  lemma StepAddsOwn(suite: seq<Session>, s: State, i: nat, c: Choice, id: string)
    requires WellFormed(suite, s) && i < |s.workers| && Take(suite, s, i, c).Some?
    ensures AddsOwn(suite, s, Take(suite, s, i, c).value, i, id)
  {
    var t := Take(suite, s, i, c).value;
    if s.workers[i].pc.HaveResults? && c.Proceed? {
      var (w, own) := (s.workers[i], suite[s.workers[i].session].id);
      CompletionAddsItsResult(suite, s.attempt, own, w.result, BuildUpdate(suite, own, w.result, w.pc.rows, c.j));
    }
    assert forall n: nat :: n < |s.workers| && n != i ==> t.workers[n] == s.workers[n];
  }

  lemma NextKeepsFirst(suite: seq<Session>, s: State, a: Action, id: string)
    requires WellFormed(suite, s) && OneFirst(suite, s, id) && Next(suite, s, a).Some?
    ensures OneFirst(suite, Next(suite, s, a).value, id)
  {
    var t := Next(suite, s, a).value;
    if a.Step? {
      StepAddsOwn(suite, s, a.worker, a.choice, id);
      AddingKeepsFirst(suite, s, t, a.worker, id);
    } else {
      AddingKeepsFirst(suite, s, t, |s.workers|, id);
    }
  }

  lemma {:induction false} RunKeepsFirst(suite: seq<Session>, s: State, actions: seq<Action>, id: string)
    requires WellFormed(suite, s) && OneFirst(suite, s, id) && Run(suite, s, actions).Some?
    ensures OneFirst(suite, Run(suite, s, actions).value, id)
    decreases |actions|
  {
    if actions != [] {
      NextKeepsFirst(suite, s, actions[0], id);
      RunKeepsFirst(suite, Next(suite, s, actions[0]).value, actions[1..], id);
    }
  }

  /** Of all who complete a session, in any interleaving, exactly one is told that it was
      no duplicate, and the persisted result is the one this one brought. */
  lemma OneFirstCompletion(suite: seq<Session>, actions: seq<Action>, id: string, i: nat, j: nat)
    requires suite != [] && Run(suite, InitialState(suite), actions).Some?
    ensures var s := Run(suite, InitialState(suite), actions).value;
      && (id in s.attempt.results <==> exists n :: CompletedFirst(suite, s, n, id))
      && (CompletedFirst(suite, s, i, id) && CompletedFirst(suite, s, j, id) ==> i == j)
      && (CompletedFirst(suite, s, i, id) ==> id in s.attempt.results && s.workers[i].result == s.attempt.results[id])
  {
    RunKeepsFirst(suite, InitialState(suite), actions, id);
  }

  /** A late completion, timeout or cancellation cannot move an ended attempt, and
      no result or score is ever overwritten. */
  lemma EndedAttemptsAreFinal(suite: seq<Session>, actions: seq<Action>, more: seq<Action>)
    requires SuiteOk(suite) && Run(suite, InitialState(suite), actions).Some?
    requires Run(suite, Run(suite, InitialState(suite), actions).value, more).Some?
    ensures Grows(Run(suite, InitialState(suite), actions).value.attempt,
                  Run(suite, Run(suite, InitialState(suite), actions).value, more).value.attempt)
  {
    InitialInv(suite);
    var k := RunKeepsInv(suite, InitialState(suite), 0, actions);
    var l := RunKeepsInv(suite, Run(suite, InitialState(suite), actions).value, k, more);
  }

  // Advancing ------------------------------------------------------------------------------------

  lemma AdvanceMeaning(suite: seq<Session>, m: Attempt, r: Attempt, k: nat, l: nat, x: nat)
    requires SuiteOk(suite) && Progress(suite, m, k) && Progress(suite, r, l) && x < |suite|
    requires Grows(m, r) || Grows(r, m)
    ensures ResolveAdvance(suite, m, r, suite[x].id) ==
      if m.status.Running? then NextSession(k)
      else if r.status.Running? then NextSession(l)
      else Complete
  {
    PositionOfSession(suite, x);
    if m.status.Running? {
      PositionOfSession(suite, k);
    } else {
      var active := (i: nat) => i < |suite| && r.sessions[i].Active?;
      assert forall i :: 0 <= i < l ==> r.sessions[i] == StatusFor(r.results[suite[i].id]);
      if r.status.Running? {
        assert forall i: nat :: i < |suite| ==> active(i) == (i == l);
        FirstOnly(active, l, |suite|);
      }
    }
  }

  lemma FirstOnly(p: nat -> bool, k: nat, n: nat)
    requires k < n && forall i: nat :: i < n ==> p(i) == (i == k)
    ensures First(p, 0, n) == Some(k)
  {
    var found := First(p, 0, n);
    assert p(k);
    assert found.Some? && p(found.value);
  }

  /** The session the metadata points at: by its id, and without one by its index. */
  ghost predicate PointsAt(suite: seq<Session>, m: Attempt, i: nat) {
    && i < |suite|
    && (m.active == Some(suite[i].id)
        || (m.activeIndex == Some(i) && forall j :: 0 <= j < |suite| ==> m.active != Some(suite[j].id)))
  }

  /** The session to fall back on: the first active one, and without one the first that
      is still open. */
  ghost predicate FallsBackOn(suite: seq<Session>, r: Attempt, i: nat)
    requires |r.sessions| == |suite|
  {
    && i < |suite| && Open(r.sessions[i])
    && (forall j :: 0 <= j < |suite| && r.sessions[j].Active? ==> r.sessions[i].Active? && i <= j)
    && (forall j :: 0 <= j < |suite| && Open(r.sessions[j]) ==> r.sessions[i].Active? || i <= j)
  }

  /** Whatever the two readings say, reachable or not: a session outside the attempt is
      invalid, the metadata decides, the session rows are the fallback, and complete
      means that neither names a session. */
  lemma AdvanceOfAnyReadings(suite: seq<Session>, m: Attempt, r: Attempt, current: string)
    requires SuiteOk(suite) && |r.sessions| == |suite|
    ensures var answer := ResolveAdvance(suite, m, r, current);
      && (answer.Invalid? <==> forall i :: 0 <= i < |suite| ==> suite[i].id != current)
      && (answer.NextSession? ==>
           PointsAt(suite, m, answer.index)
           || ((forall i :: !PointsAt(suite, m, i)) && FallsBackOn(suite, r, answer.index)))
      && (answer.Complete? ==>
           (forall i :: !PointsAt(suite, m, i)) && forall i :: 0 <= i < |suite| ==> !Open(r.sessions[i]))
  {
    var active := (i: nat) => i < |suite| && r.sessions[i].Active?;
    var waiting := (i: nat) => i < |suite| && (r.sessions[i].Created? || r.sessions[i].Scoring?);
    assert forall i: nat :: i < |suite| && Open(r.sessions[i]) ==> active(i) || waiting(i);
  }

  /** `resolveAdvance` reads the attempt and its sessions in two concurrent queries.
      Whichever comes first, it answers `complete` exactly when both saw an ended
      attempt, and otherwise names the session that was active at one of them. */
  lemma AdvanceIsNeverPremature(suite: seq<Session>, actions: seq<Action>, more: seq<Action>, x: nat)
    requires SuiteOk(suite) && x < |suite| && Run(suite, InitialState(suite), actions).Some?
    requires Run(suite, Run(suite, InitialState(suite), actions).value, more).Some?
    ensures var a := Run(suite, InitialState(suite), actions).value.attempt;
      var b := Run(suite, Run(suite, InitialState(suite), actions).value, more).value.attempt;
      && (ResolveAdvance(suite, a, b, suite[x].id).Complete? <==> !a.status.Running?)
      && (ResolveAdvance(suite, b, a, suite[x].id).Complete? <==> !a.status.Running?)
      && (ResolveAdvance(suite, a, b, suite[x].id).NextSession? ==>
           a.sessions[ResolveAdvance(suite, a, b, suite[x].id).index].Active?)
      && (ResolveAdvance(suite, b, a, suite[x].id).NextSession? ==>
           var next := ResolveAdvance(suite, b, a, suite[x].id).index;
           a.sessions[next].Active? || b.sessions[next].Active?)
  {
    InitialInv(suite);
    var s := Run(suite, InitialState(suite), actions).value;
    var k := RunKeepsInv(suite, InitialState(suite), 0, actions);
    var l := RunKeepsInv(suite, s, k, more);
    var b := Run(suite, s, more).value.attempt;
    AdvanceMeaning(suite, s.attempt, b, k, l, x);
    AdvanceMeaning(suite, b, s.attempt, l, k, x);
  }

  // Completing an attempt ------------------------------------------------------------------------

  lemma {:induction false} RunConcat(suite: seq<Session>, s: State, first: seq<Action>, second: seq<Action>)
    requires WellFormed(suite, s) && Run(suite, s, first).Some?
    ensures Run(suite, s, first + second) == Run(suite, Run(suite, s, first).value, second)
    decreases |first|
  {
    if first == [] {
      assert first + second == second;
    } else {
      RunConcat(suite, Next(suite, s, first[0]).value, first[1..], second);
      assert (first + second)[1..] == first[1..] + second;
    }
  }

  /** A new worker reads what it needs to finalize session `k`. */
  function Reading(k: nat, result: Evidence, j: Judgement): seq<Action> {
    [Arrive(k, result), Step(k, Proceed(j)), Step(k, Proceed(j))]
  }

  /** A new worker finalizes session `k` undisturbed. */
  function Turn(k: nat, result: Evidence, j: Judgement): seq<Action> {
    Reading(k, result, j) + [Step(k, Proceed(j))]
  }

  function WithReader(s: State, k: nat, result: Evidence, pc: Pc): State {
    s.(workers := s.workers + [Worker(k, result, pc)])
  }

  lemma ReadingSteps(suite: seq<Session>, s: State, k: nat, result: Evidence, j: Judgement)
    requires SuiteOk(suite) && Inv(suite, s, k) && WellFormed(suite, s)
    requires s.attempt.status.Running? && |s.workers| == k
    ensures Next(suite, s, Arrive(k, result)) == Some(WithReader(s, k, result, Begin))
    ensures Next(suite, WithReader(s, k, result, Begin), Step(k, Proceed(j))) == Some(WithReader(s, k, result, Guarded))
    ensures Next(suite, WithReader(s, k, result, Guarded), Step(k, Proceed(j)))
      == Some(WithReader(s, k, result, HaveResults(s.attempt.results)))
  {
    LastReplaced(s.workers, Worker(k, result, Begin), Worker(k, result, Guarded));
    LastReplaced(s.workers, Worker(k, result, Guarded), Worker(k, result, HaveResults(s.attempt.results)));
  }

  lemma LastReplaced(workers: seq<Worker>, v: Worker, w: Worker)
    ensures (workers + [v])[|workers| := w] == workers + [w]
  {
  }

  lemma ReadingRuns(suite: seq<Session>, s: State, k: nat, result: Evidence, j: Judgement)
    requires SuiteOk(suite) && Inv(suite, s, k) && WellFormed(suite, s)
    requires s.attempt.status.Running? && |s.workers| == k
    ensures Run(suite, s, Reading(k, result, j)) == Some(WithReader(s, k, result, HaveResults(s.attempt.results)))
  {
    ReadingSteps(suite, s, k, result, j);
    var acts := Reading(k, result, j);
    var last := WithReader(s, k, result, HaveResults(s.attempt.results));
    assert Run(suite, last, acts[1..][1..][1..]) == Some(last);
    assert Run(suite, WithReader(s, k, result, Guarded), acts[1..][1..]) == Some(last);
    assert Run(suite, WithReader(s, k, result, Begin), acts[1..]) == Some(last);
  }

  /** The last step of an undisturbed worker. */
  lemma ReaderCompletes(suite: seq<Session>, s: State, k: nat, result: Evidence, j: Judgement)
    requires SuiteOk(suite) && Inv(suite, s, k) && WellFormed(suite, s)
    requires s.attempt.status.Running? && |s.workers| == k
    ensures var r := WithReader(s, k, result, HaveResults(s.attempt.results));
      && Next(suite, r, Step(k, Proceed(j))).Some?
      && var t := Next(suite, r, Step(k, Proceed(j))).value;
         && Progress(suite, t.attempt, k + 1) && |t.workers| == k + 1
         && t.attempt.results == s.attempt.results[suite[k].id := result]
         && (t.attempt.status.Running? <==> k + 1 < |suite|)
  {
    ActiveSessionCompletes(suite, s.attempt, k, result, j);
  }

  lemma ProgressIsUnique(suite: seq<Session>, a: Attempt, k: nat, l: nat)
    requires Progress(suite, a, k) && Progress(suite, a, l)
    ensures k == l
  {
    if k < |suite| {
      assert suite[k].id !in a.results;
    }
    if l < |suite| {
      assert suite[l].id !in a.results;
    }
  }

  lemma TurnCompletes(suite: seq<Session>, s: State, k: nat, result: Evidence, j: Judgement)
    requires SuiteOk(suite) && Inv(suite, s, k) && WellFormed(suite, s)
    requires s.attempt.status.Running? && |s.workers| == k
    ensures Run(suite, s, Turn(k, result, j)).Some?
    ensures var t := Run(suite, s, Turn(k, result, j)).value;
      && Inv(suite, t, k + 1) && |t.workers| == k + 1
      && t.attempt.results == s.attempt.results[suite[k].id := result]
      && (t.attempt.status.Running? <==> k + 1 < |suite|)
  {
    ReadingRuns(suite, s, k, result, j);
    ReaderCompletes(suite, s, k, result, j);
    RunConcat(suite, s, Reading(k, result, j), [Step(k, Proceed(j))]);
    var l := RunKeepsInv(suite, s, k, Turn(k, result, j));
    ProgressIsUnique(suite, Run(suite, s, Turn(k, result, j)).value.attempt, k + 1, l);
  }

  /** Any list of results, one per session, can be completed in order; the attempt
      then ends with exactly these results. */
  lemma SerialCompletionsFinish(suite: seq<Session>, results: seq<Evidence>, j: Judgement) returns (actions: seq<Action>)
    requires SuiteOk(suite) && |results| == |suite|
    ensures Run(suite, InitialState(suite), actions).Some?
    ensures var a := Run(suite, InitialState(suite), actions).value.attempt;
      && (a.status.Completed? || a.status.Failed?)
      && forall i :: 0 <= i < |suite| ==> suite[i].id in a.results && a.results[suite[i].id] == results[i]
  {
    InitialInv(suite);
    actions := [];
    for k := 0 to |suite|
      invariant Run(suite, InitialState(suite), actions).Some?
      invariant Inv(suite, Run(suite, InitialState(suite), actions).value, k)
      invariant |Run(suite, InitialState(suite), actions).value.workers| == k
      invariant Run(suite, InitialState(suite), actions).value.attempt.status.Running? <==> k < |suite|
      invariant forall i :: 0 <= i < k ==>
        suite[i].id in Run(suite, InitialState(suite), actions).value.attempt.results
        && Run(suite, InitialState(suite), actions).value.attempt.results[suite[i].id] == results[i]
    {
      var s := Run(suite, InitialState(suite), actions).value;
      TurnCompletes(suite, s, k, results[k], j);
      RunConcat(suite, InitialState(suite), actions, Turn(k, results[k], j));
      actions := actions + Turn(k, results[k], j);
    }
    var a := Run(suite, InitialState(suite), actions).value.attempt;
    assert Progress(suite, a, |suite|);
  }
}
