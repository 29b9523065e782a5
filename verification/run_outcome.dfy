/** The guarantees of the run race: one outcome, final, and exactly which appended
    events would let a second request win. */
module RunOutcome {
  import opened Collections
  import opened RunRace

  lemma NewRunInv(s: State)
    requires NewRun(s)
    ensures Inv(s)
  {
  }

  /** The row, the event and the artifacts a winner leaves. */
  predicate LeavesOutcome(request: Request, row: Run, events: seq<Event>, artifacts: seq<Artifact>, tx: nat) {
    match request
    case Complete(status, score, error, at, files) =>
      && row == Run(status, score, error, Some(at))
      && events == [Event(if status == RunStatus.Completed then RunCompleted else RunFailed, Some(tx))]
      && |artifacts| == |files| && forall k :: 0 <= k < |files| ==> artifacts[k] == Artifact(files[k], tx)
    case Cancel(_, at) =>
      && row == Run(RunStatus.Cancelled, None, None, Some(at))
      && events == [Event(RunCancelled, Some(tx))] && artifacts == []
    case SubmitMetadata => false
  }

  /** Whatever interleaves: at most one completion or cancellation wins, a run is
      over exactly when one did, there is one outcome event, only the winner's
      artifacts exist, and every other request that is answered with a run is
      answered with the winner's. */
  lemma OneOutcome(s: State, actions: seq<Action>, i: nat, j: nat)
    requires NewRun(s) && Outcome(s, actions).Some?
    ensures var t := Outcome(s, actions).value;
      && (i < |t.txs| && j < |t.txs| && Winner(t.txs[i]) && Winner(t.txs[j]) ==> i == j)
      && (Terminal(t.row.status) <==> exists w :: 0 <= w < |t.txs| && Winner(t.txs[w]))
      && |OutcomeEvents(t)| == (if Terminal(t.row.status) then 1 else 0)
      && (forall a :: a in t.artifacts ==> a.tx < |t.txs| && Winner(t.txs[a.tx]))
      && (i < |t.txs| && Winner(t.txs[i]) ==>
           t.txs[i].pc.answer == Some(t.row) && LeavesOutcome(t.txs[i].request, t.row, OutcomeEvents(t), t.artifacts, i))
      && (i < |t.txs| && t.txs[i].pc.Done? && !t.txs[i].request.SubmitMetadata? && t.txs[i].pc.answer.Some? ==>
           t.txs[i].pc.answer.value == t.row)
  {
    NewRunInv(s);
    OutcomeKeepsInv(s, actions);
    var t := Outcome(s, actions).value;
    if i < |t.txs| {
      assert TxOk(t, i);
    }
    if Terminal(t.row.status) {
      var w :| ClosedBy(t, w);
    }
  }

  /** The row, score, completion time, artifacts and outcome events of an ended
      run never change. */
  lemma EndedStepChangesNothing(s: State, a: Action)
    requires Inv(s) && Terminal(s.row.status) && Next(s, a).Some? && Harmless(s, a)
    ensures var t := Next(s, a).value;
      t.row == s.row && t.artifacts == s.artifacts && OutcomeEvents(t) == OutcomeEvents(s)
  {
    match a
    case Step(i, _) =>
      assert TxOk(s, i);
    case Append(kind, at) =>
      EventsConcat(s, [Event(kind, None)]);
      OneEvent(Event(kind, None));
      assert OutcomeEvents(Next(s, a).value) == OutcomeEvents(s.(events := s.events + [Event(kind, None)]));
    case Arrive(_) =>
  }

  lemma {:induction false} OutcomeIsFinal(s: State, more: seq<Action>)
    requires Inv(s) && Terminal(s.row.status) && Outcome(s, more).Some?
    ensures var t := Outcome(s, more).value;
      t.row == s.row && t.artifacts == s.artifacts && OutcomeEvents(t) == OutcomeEvents(s)
    decreases |more|
  {
    if more != [] {
      EndedStepChangesNothing(s, more[0]);
      NextKeepsInv(s, more[0]);
      OutcomeIsFinal(Next(s, more[0]).value, more[1..]);
    }
  }

  // Appended transitions ---------------------------------------------------------------

  /** No transaction can win any more. */
  ghost predicate Closed(s: State) {
    && Terminal(s.row.status)
    && forall i :: 0 <= i < |s.txs| ==>
      !s.txs[i].pc.Holding? && (s.txs[i].pc.Checked? ==> !Terminal(s.txs[i].pc.seen))
  }

  ghost predicate NoNewWinner(s: State, t: State) {
    |s.txs| <= |t.txs| && forall i :: 0 <= i < |t.txs| && Winner(t.txs[i]) ==> i < |s.txs| && Winner(s.txs[i])
  }

  /** No step of a transaction wins on a closed run. */
  lemma ClosedStepStays(s: State, i: nat, ok: bool)
    requires Closed(s) && i < |s.txs| && Take(s, i, ok).Some?
    ensures Closed(Take(s, i, ok).value) && NoNewWinner(s, Take(s, i, ok).value)
  {
    var t := Take(s, i, ok).value;
    assert t.row == s.row && |t.txs| == |s.txs|;
    assert forall n :: 0 <= n < |s.txs| && n != i ==> t.txs[n] == s.txs[n];
  }

  lemma ClosedNextStays(s: State, a: Action)
    requires Closed(s) && Next(s, a).Some? && Harmless(s, a)
    ensures Closed(Next(s, a).value) && NoNewWinner(s, Next(s, a).value)
  {
    match a
    case Step(i, ok) => ClosedStepStays(s, i, ok);
    case Arrive(_) => assert forall i :: 0 <= i < |s.txs| ==> Next(s, a).value.txs[i] == s.txs[i];
    case Append(_, _) => assert Next(s, a).value.txs == s.txs;
  }

  lemma {:induction false} ClosedStays(s: State, more: seq<Action>)
    requires Closed(s) && Outcome(s, more).Some?
    ensures NoNewWinner(s, Outcome(s, more).value)
    decreases |more|
  {
    if more != [] {
      ClosedNextStays(s, more[0]);
      ClosedStays(Next(s, more[0]).value, more[1..]);
    }
  }

  const COMPLETION: Request := Complete(RunStatus.Completed, None, None, 0, [])

  function FourSteps(n: nat): seq<Action> {
    [Step(n, true), Step(n, true), Step(n, true), Step(n, true)]
  }

  lemma CompletionWins(s: State, n: nat)
    requires n < |s.txs| && s.txs[n] == Tx(COMPLETION, Begin) && Completable(s.row.status) && s.lock.None?
    ensures Outcome(s, FourSteps(n)).Some? && |Outcome(s, FourSteps(n)).value.txs| == |s.txs|
    ensures Winner(Outcome(s, FourSteps(n)).value.txs[n])
    ensures Outcome(s, FourSteps(n)).value.events == s.events + [Event(RunCompleted, Some(n))]
  {
    var acts := FourSteps(n);
    var s1 := Next(s, acts[0]).value;
    var s2 := Next(s1, acts[1]).value;
    var s3 := Next(s2, acts[2]).value;
    assert s3.txs[n].pc.Holding? && s3.txs[n].pc.stage.EventIn?;
    var s4 := Next(s3, acts[3]).value;
    assert Outcome(s3, acts[1..][1..][1..]) == Some(s4) by {
      assert acts[1..][1..][1..][1..] == [];
    }
    assert Outcome(s2, acts[1..][1..]) == Some(s4);
    assert Outcome(s1, acts[1..]) == Some(s4);
  }

  lemma OpenRunIsWon(s: State)
    requires Completable(s.row.status) && s.lock.None?
    ensures CanBeWonAgain(s)
  {
    var n := |s.txs|;
    var acts := [Arrive(COMPLETION)] + FourSteps(n);
    var arrived := Next(s, acts[0]).value;
    CompletionWins(arrived, n);
    assert acts[1..] == FourSteps(n);
    assert Outcome(s, acts) == Outcome(arrived, FourSteps(n));
  }

  ghost predicate CanBeWonAgain(s: State) {
    exists more :: Outcome(s, more).Some? && !NoNewWinner(s, Outcome(s, more).value)
  }

  /** `appendEvent` moves the status without looking at it. On an ended run this
      admits a second winner exactly when the event reports a connected or running
      agent. */
  lemma SecondWinnerIffReopened(s: State, kind: EventKind, at: int)
    requires Inv(s) && Terminal(s.row.status)
    ensures Appended(s, kind, at).Some?
    ensures CanBeWonAgain(Appended(s, kind, at).value) <==> kind.AgentHello? || kind.RunRunning?
  {
    var t := Appended(s, kind, at).value;
    if kind.AgentHello? || kind.RunRunning? {
      OpenRunIsWon(t);
    } else {
      assert Closed(t) by {
        forall i | 0 <= i < |t.txs|
          ensures !t.txs[i].pc.Holding? && (t.txs[i].pc.Checked? ==> !Terminal(t.txs[i].pc.seen))
        {
          assert TxOk(s, i);
        }
      }
      forall more | Outcome(t, more).Some?
        ensures NoNewWinner(t, Outcome(t, more).value)
      {
        ClosedStays(t, more);
      }
    }
  }

  /** The run has ended and no request ever wins it. */
  ghost predicate EndsWithoutWinner(s: State) {
    && Terminal(s.row.status)
    && forall more :: Outcome(s, more).Some? ==> NobodyWon(Outcome(s, more).value)
  }

  ghost predicate NobodyWon(s: State) {
    forall i :: 0 <= i < |s.txs| ==> !Winner(s.txs[i])
  }

  lemma AppendedClosesOpenRun(s: State, kind: EventKind, at: int)
    requires Inv(s) && !Terminal(s.row.status) && Appended(s, kind, at).Some? && (kind.RunCompleted? || kind.RunFailed?)
    ensures Closed(Appended(s, kind, at).value) && NobodyWon(Appended(s, kind, at).value)
  {
    forall i | 0 <= i < |s.txs|
      ensures !s.txs[i].pc.Holding? && (s.txs[i].pc.Checked? ==> !Terminal(s.txs[i].pc.seen))
    {
      assert TxOk(s, i);
    }
  }

  /** The row behind an appended event: a report of the agent moves the status, one that
      it has ended sets the completion time as well, and nothing else is touched. */
  predicate RowAfter(kind: EventKind, at: int, before: Run, after: Run) {
    && after.score == before.score && after.errorMessage == before.errorMessage
    && (kind.AgentHello? ==> after.status.AgentConnected?)
    && (kind.RunRunning? ==> after.status.Running?)
    && (kind.RunCompleted? ==> after.status.Completed?)
    && (kind.RunFailed? ==> after.status.Failed?)
    && (kind.RunCancelled? || kind.Other? ==> after.status == before.status)
    && after.completedAt == if kind.RunCompleted? || kind.RunFailed? then Some(at) else before.completedAt
  }

  lemma AppendedEvents(s: State, kind: EventKind, at: int)
    requires Inv(s) && Appended(s, kind, at).Some? && IsOutcome(kind)
    ensures |OutcomeEvents(Appended(s, kind, at).value)| == if Terminal(s.row.status) then 2 else 1
  {
    EventsConcat(s, [Event(kind, None)]);
    OneEvent(Event(kind, None));
    assert OutcomeEvents(Appended(s, kind, at).value) == OutcomeEvents(s.(events := s.events + [Event(kind, None)]));
    if Terminal(s.row.status) {
      var w :| ClosedBy(s, w);
    }
  }

  /** On an open run an appended event ends the run exactly if it reports completion
      or failure, and then nobody wins it, ever. Every event that announces an
      outcome adds one, on an open run its first, on an ended run its second. No
      artifact and no other transaction is touched. */
  lemma AppendedOutcome(s: State, kind: EventKind, at: int)
    requires Inv(s) && Appended(s, kind, at).Some?
    ensures var t := Appended(s, kind, at).value;
      && (!Terminal(s.row.status) ==> (EndsWithoutWinner(t) <==> kind.RunCompleted? || kind.RunFailed?))
      && (IsOutcome(kind) ==> |OutcomeEvents(t)| == if Terminal(s.row.status) then 2 else 1)
      && t.events == s.events + [Event(kind, None)] && t.artifacts == s.artifacts && t.txs == s.txs
      && RowAfter(kind, at, s.row, t.row)
  {
    var t := Appended(s, kind, at).value;
    if IsOutcome(kind) {
      AppendedEvents(s, kind, at);
    }
    if !Terminal(s.row.status) && (kind.RunCompleted? || kind.RunFailed?) {
      AppendedClosesOpenRun(s, kind, at);
      forall more | Outcome(t, more).Some?
        ensures NobodyWon(Outcome(t, more).value)
      {
        ClosedStays(t, more);
      }
    }
  }

  /** An appended cancellation moves no status, so on an open run that nobody is
      writing a winner can still follow and announce a second outcome. */
  lemma CancelledEventThenWinner(s: State, at: int) returns (more: seq<Action>)
    requires Inv(s) && !Terminal(s.row.status) && s.lock.None?
    ensures Appended(s, RunCancelled, at).Some?
    ensures Outcome(Appended(s, RunCancelled, at).value, more).Some?
    ensures |OutcomeEvents(Outcome(Appended(s, RunCancelled, at).value, more).value)| == 2
  {
    var t := Appended(s, RunCancelled, at).value;
    AppendedOutcome(s, RunCancelled, at);
    more := [Arrive(COMPLETION)] + FourSteps(|t.txs|);
    var arrived := Next(t, more[0]).value;
    CompletionWins(arrived, |t.txs|);
    assert more[1..] == FourSteps(|t.txs|);
    assert Outcome(t, more) == Outcome(arrived, FourSteps(|t.txs|));
    var announced := Event(RunCompleted, Some(|t.txs|));
    EventsConcat(t, [announced]);
    OneEvent(announced);
    assert OutcomeEvents(Outcome(t, more).value) == OutcomeEvents(t.(events := t.events + [announced]));
  }

  // Metadata -------------------------------------------------------------------------------

  /** Transaction `i` is an annotation that has first read status `before`. */
  predicate ReadAs(s: State, i: nat, before: RunStatus) {
    && i < |s.txs| && s.txs[i].request.SubmitMetadata?
    && match s.txs[i].pc
       case Begin => false
       case PreRead(b) => b == before
       case Checked(b, _) => b == before
       case Holding(b, _, _, _, _) => b == before
       case _ => true
  }

  lemma StepKeepsReading(s: State, i: nat, ok: bool, before: RunStatus)
    requires ReadAs(s, i, before) && Take(s, i, ok).Some?
    ensures ReadAs(Take(s, i, ok).value, i, before)
  {
  }

  lemma NextKeepsReading(s: State, a: Action, i: nat, before: RunStatus)
    requires ReadAs(s, i, before) && Next(s, a).Some?
    ensures ReadAs(Next(s, a).value, i, before)
  {
    if a.Step? && a.tx == i {
      StepKeepsReading(s, i, a.ok, before);
    } else {
      assert Next(s, a).value.txs[i] == s.txs[i];
    }
  }

  lemma {:induction false} RunKeepsReading(s: State, actions: seq<Action>, i: nat, before: RunStatus)
    requires ReadAs(s, i, before) && Outcome(s, actions).Some?
    ensures ReadAs(Outcome(s, actions).value, i, before)
    decreases |actions|
  {
    if actions != [] {
      NextKeepsReading(s, actions[0], i, before);
      RunKeepsReading(Next(s, actions[0]).value, actions[1..], i, before);
    }
  }

  /** The status that an annotation is there to write. */
  function Following(status: RunStatus): RunStatus {
    if status.WaitingForAgent? then AgentConnected else status
  }

  predicate FirstReading(s: State, i: nat) {
    i < |s.txs| && s.txs[i] == Tx(SubmitMetadata, Begin)
  }

  /** An annotation computes its status from a reading before its transaction.
      Whatever happens between that reading and its commit, it writes the status
      that follows the current one exactly when the status is the one it read, or
      the two are waiting and connected. */
  lemma AnnotationFollowsIffFresh(s: State, i: nat, rest: seq<Action>)
    requires FirstReading(s, i) && Next(s, Step(i, true)).Some?
    requires Outcome(Next(s, Step(i, true)).value, rest).Some?
    requires AtCommit(Outcome(Next(s, Step(i, true)).value, rest).value, i)
    ensures var (read, t) := (s.row.status, Outcome(Next(s, Step(i, true)).value, rest).value);
      && Next(t, Step(i, true)).Some?
      && (Next(t, Step(i, true)).value.row.status == Following(t.row.status) <==>
           (read == t.row.status || (read.WaitingForAgent? && t.row.status.AgentConnected?)
            || (read.AgentConnected? && t.row.status.WaitingForAgent?)))
  {
    var u := Next(s, Step(i, true)).value;
    assert ReadAs(u, i, s.row.status);
    RunKeepsReading(u, rest, i, s.row.status);
  }

  /** The run starts between an annotation's two readings of the status. */
  function Overtaking(at: int): seq<Action> {
    [Arrive(SubmitMetadata), Step(0, true), Append(RunRunning, at)]
  }

  lemma OvertakenReading(s: State, at: int)
    requires NewRun(s) && s.row.status.WaitingForAgent?
    ensures Outcome(s, Overtaking(at)).Some?
    ensures var t := Outcome(s, Overtaking(at)).value;
      t.row.status.Running? && t.lock.None? && t.txs == [Tx(SubmitMetadata, PreRead(WaitingForAgent))]
  {
    var acts := Overtaking(at);
    var s1 := Next(s, acts[0]).value;
    var s2 := Next(s1, acts[1]).value;
    var s3 := Next(s2, acts[2]).value;
    assert Outcome(s2, acts[1..][1..]) == Some(s3) by {
      assert acts[1..][1..][1..] == [];
    }
    assert Outcome(s1, acts[1..]) == Some(s3);
  }

  lemma OvertakenCommit(s: State)
    requires s.row.status.Running? && s.lock.None? && s.txs == [Tx(SubmitMetadata, PreRead(WaitingForAgent))]
    ensures Outcome(s, FourSteps(0)).Some?
    ensures var t := Outcome(s, FourSteps(0)).value;
      t.row.status.AgentConnected? && t.txs != [] && t.txs[0].pc.Done? && t.txs[0].pc.won
  {
    var acts := FourSteps(0);
    var s1 := Next(s, acts[0]).value;
    var s2 := Next(s1, acts[1]).value;
    var s3 := Next(s2, acts[2]).value;
    var s4 := Next(s3, acts[3]).value;
    assert Outcome(s3, acts[1..][1..][1..]) == Some(s4) by {
      assert acts[1..][1..][1..][1..] == [];
    }
    assert Outcome(s2, acts[1..][1..]) == Some(s4);
    assert Outcome(s1, acts[1..]) == Some(s4);
  }

  /** An overtaken annotation can set a run back: one that first read the status before the
      agent connected writes `agent_connected` over a run that is running by then. */
  lemma AnnotationCanStepBack(s: State, at: int) returns (running: State, annotated: State)
    requires NewRun(s) && s.row.status.WaitingForAgent?
    ensures Outcome(s, Overtaking(at)) == Some(running) && Outcome(running, FourSteps(0)) == Some(annotated)
    ensures running.row.status.Running? && annotated.row.status.AgentConnected?
    ensures annotated.txs != [] && annotated.txs[0].pc.Done? && annotated.txs[0].pc.won
  {
    OvertakenReading(s, at);
    running := Outcome(s, Overtaking(at)).value;
    OvertakenCommit(running);
    annotated := Outcome(running, FourSteps(0)).value;
  }

  // What an annotation announces, and a foreign cancellation -----------------------------------

  /** An annotation that holds the row has last read the status that it still has. */
  ghost predicate SeenIsCurrent(s: State) {
    forall i :: 0 <= i < |s.txs| && s.txs[i].pc.Holding? && s.txs[i].request.SubmitMetadata? ==>
      s.txs[i].pc.seen == s.row.status
  }

  lemma StepKeepsSeen(s: State, i: nat, ok: bool)
    requires Inv(s) && SeenIsCurrent(s) && i < |s.txs| && Take(s, i, ok).Some?
    ensures SeenIsCurrent(Take(s, i, ok).value)
  {
    var t := Take(s, i, ok).value;
    assert TxOk(s, i);
    forall n | 0 <= n < |t.txs| && t.txs[n].pc.Holding? && t.txs[n].request.SubmitMetadata?
      ensures t.txs[n].pc.seen == t.row.status
    {
      if n != i {
        assert t.txs[n] == s.txs[n] && TxOk(s, n);
      }
    }
  }

  lemma NextKeepsSeen(s: State, a: Action)
    requires Inv(s) && SeenIsCurrent(s) && Next(s, a).Some?
    ensures SeenIsCurrent(Next(s, a).value)
  {
    var t := Next(s, a).value;
    if a.Step? {
      StepKeepsSeen(s, a.tx, a.ok);
    } else {
      forall n | 0 <= n < |t.txs| && t.txs[n].pc.Holding? && t.txs[n].request.SubmitMetadata?
        ensures t.txs[n].pc.seen == t.row.status
      {
        assert n < |s.txs| && t.txs[n] == s.txs[n] && TxOk(s, n);
      }
    }
  }

  lemma {:induction false} OutcomeKeepsSeen(s: State, actions: seq<Action>)
    requires Inv(s) && SeenIsCurrent(s) && Outcome(s, actions).Some?
    ensures SeenIsCurrent(Outcome(s, actions).value) && Inv(Outcome(s, actions).value)
    decreases |actions|
  {
    if actions != [] {
      NextKeepsSeen(s, actions[0]);
      NextKeepsInv(s, actions[0]);
      OutcomeKeepsSeen(Next(s, actions[0]).value, actions[1..]);
    }
  }

  /** In every run, an annotation announces the agent exactly if the run was waiting for
      it both at the first reading and at the commit. */
  lemma HelloIffStillWaiting(s: State, actions: seq<Action>, i: nat)
    requires NewRun(s) && Outcome(s, actions).Some?
    requires AtCommit(Outcome(s, actions).value, i) && Outcome(s, actions).value.txs[i].request.SubmitMetadata?
    ensures var t := Outcome(s, actions).value;
      Continue(t, i).events == t.events +
        if t.txs[i].pc.before.WaitingForAgent? && t.row.status.WaitingForAgent? then [Event(AgentHello, Some(i))] else []
  {
    NewRunInv(s);
    OutcomeKeepsSeen(s, actions);
    var t := Outcome(s, actions).value;
    assert TxOk(t, i);
  }

  /** A cancellation by someone else is answered with nothing. */
  predicate ForeignOk(tx: Tx) {
    tx.request.Cancel? && !tx.request.owns ==> tx.pc.Begin? || tx.pc.Aborted? || tx.pc == Done(None, false)
  }

  ghost predicate ForeignersOk(s: State) {
    forall i :: 0 <= i < |s.txs| ==> ForeignOk(s.txs[i])
  }

  lemma NextKeepsForeigners(s: State, a: Action)
    requires ForeignersOk(s) && Next(s, a).Some?
    ensures ForeignersOk(Next(s, a).value)
  {
    var t := Next(s, a).value;
    forall n | 0 <= n < |t.txs|
      ensures ForeignOk(t.txs[n])
    {
      if n < |s.txs| && !(a.Step? && a.tx == n) {
        assert t.txs[n] == s.txs[n];
      } else if n < |s.txs| {
        assert ForeignOk(s.txs[n]);
      }
    }
  }

  lemma {:induction false} ForeignCancelLearnsNothing(s: State, actions: seq<Action>)
    requires ForeignersOk(s) && Outcome(s, actions).Some?
    ensures ForeignersOk(Outcome(s, actions).value)
    decreases |actions|
  {
    if actions != [] {
      NextKeepsForeigners(s, actions[0]);
      ForeignCancelLearnsNothing(Next(s, actions[0]).value, actions[1..]);
    }
  }
}
