/** The race between completing, cancelling and annotating one benchmark run. Each
    request is a transaction of single statements; an update waits for the row's
    lock, re-evaluates its condition on the committed row, and keeps the lock until
    commit, and nothing a transaction wrote is visible before that. */
module RunRace {
  import opened Collections

  datatype RunStatus =
    | Queued | WaitingForAgent | AgentConnected | Starting | Running | Scoring
    | Completed | Failed | Cancelled | Timeout

  predicate Completable(status: RunStatus) {
    || status.Queued? || status.WaitingForAgent? || status.AgentConnected?
    || status.Starting? || status.Running? || status.Scoring?
  }

  predicate Terminal(status: RunStatus) {
    status.Completed? || status.Failed? || status.Cancelled? || status.Timeout?
  }

  datatype Run = Run(status: RunStatus, score: Option<real>, errorMessage: Option<string>, completedAt: Option<int>)

  datatype EventKind = AgentHello | RunRunning | RunCompleted | RunFailed | RunCancelled | Other

  /** A transaction's event carries its number; an appended one does not. */
  datatype Event = Event(kind: EventKind, tx: Option<nat>)

  datatype Artifact = Artifact(file: string, tx: nat)

  datatype Request =
    | Complete(status: RunStatus, score: Option<real>, errorMessage: Option<string>, at: int, files: seq<string>)
    | Cancel(owns: bool, at: int)
    | SubmitMetadata

  datatype Stage = Updated | FilesIn | EventIn

  datatype Pc =
    | Begin
    | PreRead(before: RunStatus)
    | Checked(before: RunStatus, seen: RunStatus)
    | Holding(before: RunStatus, seen: RunStatus, stage: Stage, files: seq<string>, events: seq<EventKind>)
    | Reread
    | Done(answer: Option<Run>, won: bool)
    | Aborted

  datatype Tx = Tx(request: Request, pc: Pc)

  datatype State = State(row: Run, lock: Option<nat>, events: seq<Event>, artifacts: seq<Artifact>, txs: seq<Tx>)

  /** `Append` is `appendEvent`, whose transition is not guarded by the status. */
  datatype Action = Arrive(request: Request) | Step(tx: nat, ok: bool) | Append(kind: EventKind, at: int)

  function At(s: State, i: nat, pc: Pc): State
    requires i < |s.txs|
  {
    s.(txs := s.txs[i := s.txs[i].(pc := pc)])
  }

  /** The row an update writes. */
  function Target(request: Request, row: Run, before: RunStatus): Run {
    match request
    case Complete(status, score, error, at, _) => Run(status, score, error, Some(at))
    case Cancel(_, at) => Run(Cancelled, None, None, Some(at))
    case SubmitMetadata => row.(status := if before.WaitingForAgent? then AgentConnected else before)
  }

  function EventsOf(request: Request, before: RunStatus, seen: RunStatus): seq<EventKind> {
    match request
    case Complete(status, _, _, _, _) => [if status.Completed? then RunCompleted else RunFailed]
    case Cancel(_, _) => [RunCancelled]
    case SubmitMetadata => if before.WaitingForAgent? && seen.WaitingForAgent? then [AgentHello] else []
  }

  function FilesOf(request: Request): seq<string> {
    if request.Complete? then request.files else []
  }

  /** The update's WHERE clause. */
  predicate Matches(request: Request, row: Run, seen: RunStatus) {
    match request
    case SubmitMetadata => row.status == seen
    case Cancel(owns, _) => owns && Completable(row.status)
    case Complete(_, _, _, _, _) => Completable(row.status)
  }

  function Tagged(files: seq<string>, tx: nat): seq<Artifact> {
    seq(|files|, i requires 0 <= i < |files| => Artifact(files[i], tx))
  }

  function Logged(kinds: seq<EventKind>, tx: nat): seq<Event> {
    seq(|kinds|, i requires 0 <= i < |kinds| => Event(kinds[i], Some(tx)))
  }

  /** The first reads: what they return without updating. */
  function Read(s: State, i: nat): State
    requires i < |s.txs| && (s.txs[i].pc.Begin? || s.txs[i].pc.PreRead?)
  {
    var tx := s.txs[i];
    match tx.request
    case Complete(_, _, _, _, _) =>
      At(s, i, if Completable(s.row.status) then Checked(s.row.status, s.row.status) else Done(Some(s.row), false))
    case Cancel(owns, _) =>
      At(s, i,
        if !owns then Done(None, false)
        else if Completable(s.row.status) then Checked(s.row.status, s.row.status)
        else Done(Some(s.row), false))
    case SubmitMetadata =>
      At(s, i,
        if tx.pc.Begin? then (if Terminal(s.row.status) then Aborted else PreRead(s.row.status))
        else if Terminal(s.row.status) then Done(None, false)
        else Checked(tx.pc.before, s.row.status))
  }

  function Update(s: State, i: nat): State
    requires i < |s.txs| && s.txs[i].pc.Checked?
  {
    var tx := s.txs[i];
    if Matches(tx.request, s.row, tx.pc.seen) then
      At(s.(lock := Some(i)), i, Holding(tx.pc.before, tx.pc.seen, Updated, [], []))
    else At(s, i, if tx.request.SubmitMetadata? then Done(None, false) else Reread)
  }

  /** The inserts behind a won update, then the commit. */
  function Continue(s: State, i: nat): State
    requires i < |s.txs| && s.txs[i].pc.Holding?
  {
    var tx := s.txs[i];
    var pc := tx.pc;
    if pc.stage.Updated? && FilesOf(tx.request) != [] then
      At(s, i, pc.(stage := FilesIn, files := FilesOf(tx.request)))
    else if !pc.stage.EventIn? then
      At(s, i, pc.(stage := EventIn, events := EventsOf(tx.request, pc.before, pc.seen)))
    else
      var row := Target(tx.request, s.row, pc.before);
      At(s.(row := row, lock := None, events := s.events + Logged(pc.events, i),
            artifacts := s.artifacts + Tagged(pc.files, i)), i, Done(Some(row), true))
  }

  function Take(s: State, i: nat, ok: bool): Option<State>
    requires i < |s.txs|
  {
    var pc := s.txs[i].pc;
    if pc.Done? || pc.Aborted? then None
    else if !ok then Some(At(s.(lock := if s.lock == Some(i) then None else s.lock), i, Aborted))
    else if pc.Begin? || pc.PreRead? then Some(Read(s, i))
    else if pc.Checked? then (if s.lock.None? then Some(Update(s, i)) else None)
    else if pc.Holding? then Some(Continue(s, i))
    else
      var request := s.txs[i].request;
      Some(At(s, i, Done(if request.Cancel? && !request.owns then None else Some(s.row), false)))
  }

  /** The status an appended event moves the run to. */
  function Transition(kind: EventKind): Option<RunStatus> {
    match kind
    case AgentHello => Some(AgentConnected)
    case RunRunning => Some(Running)
    case RunCompleted => Some(Completed)
    case RunFailed => Some(Failed)
    case _ => None
  }

  function Appended(s: State, kind: EventKind, at: int): Option<State> {
    var t := Transition(kind);
    var logged := s.(events := s.events + [Event(kind, None)]);
    if t.None? then Some(logged)
    else if s.lock.Some? then None
    else
      var row := s.row.(status := t.value);
      Some(logged.(row := if Terminal(t.value) then row.(completedAt := Some(at)) else row))
  }

  function Next(s: State, a: Action): Option<State> {
    match a
    case Arrive(request) =>
      if request.Complete? && !Terminal(request.status) then None
      else Some(s.(txs := s.txs + [Tx(request, Begin)]))
    case Step(i, ok) => if i < |s.txs| then Take(s, i, ok) else None
    case Append(kind, at) => Appended(s, kind, at)
  }

  predicate IsOutcome(kind: EventKind) {
    kind.RunCompleted? || kind.RunFailed? || kind.RunCancelled?
  }

  /** An appended event that leaves the outcome alone: it announces none, and moves
      the status only while the run is open. */
  predicate Harmless(s: State, a: Action) {
    a.Append? ==> !IsOutcome(a.kind) && (Transition(a.kind).Some? ==> !Terminal(s.row.status))
  }

  /** Runs in which every append is harmless. */
  function Outcome(s: State, actions: seq<Action>): Option<State>
    decreases |actions|
  {
    if actions == [] then Some(s)
    else
      var next := Next(s, actions[0]);
      if !Harmless(s, actions[0]) || next.None? then None else Outcome(next.value, actions[1..])
  }

  predicate IsOutcomeEvent(e: Event) {
    IsOutcome(e.kind)
  }

  function OutcomeEvents(s: State): seq<Event> {
    Filter(IsOutcomeEvent, s.events)
  }

  predicate Winner(tx: Tx) {
    tx.pc.Done? && tx.pc.won && !tx.request.SubmitMetadata?
  }

  predicate NewRun(s: State) {
    Completable(s.row.status) && s.lock.None? && s.txs == [] && OutcomeEvents(s) == [] && s.artifacts == []
  }

  // The invariant ----------------------------------------------------------------------

  predicate HoldOk(request: Request, pc: Pc)
    requires pc.Holding?
  {
    && pc.files == (if pc.stage.Updated? then [] else FilesOf(request))
    && pc.events == (if pc.stage.EventIn? then EventsOf(request, pc.before, pc.seen) else [])
  }

  ghost predicate TxOk(s: State, i: nat)
    requires i < |s.txs|
  {
    var tx := s.txs[i];
    && (tx.request.Complete? ==> Terminal(tx.request.status))
    && match tx.pc
       case Checked(before, seen) =>
         !Terminal(before) && !Terminal(seen) && (tx.request.Cancel? ==> tx.request.owns)
       case PreRead(before) => !Terminal(before)
       case Holding(before, _, _, _, _) =>
         s.lock == Some(i) && !Terminal(before) && !Terminal(s.row.status) && HoldOk(tx.request, tx.pc)
       case Reread => Terminal(s.row.status) && !tx.request.SubmitMetadata?
       case Done(answer, won) =>
         if tx.request.SubmitMetadata? then true
         else if won then Terminal(s.row.status)
         else answer.Some? ==> Terminal(s.row.status) && answer.value == s.row
       case _ => true
  }

  /** An open run has no outcome yet. */
  ghost predicate OpenOk(s: State) {
    OutcomeEvents(s) == [] && s.artifacts == [] && forall i :: 0 <= i < |s.txs| ==> !Winner(s.txs[i])
  }

  /** A closed run has exactly the outcome of its one winner `w`. */
  ghost predicate ClosedBy(s: State, w: nat) {
    && w < |s.txs| && Winner(s.txs[w])
    && (forall i :: 0 <= i < |s.txs| && Winner(s.txs[i]) ==> i == w)
    && s.row == Target(s.txs[w].request, s.row, s.row.status)
    && s.txs[w].pc.answer == Some(s.row)
    && s.artifacts == Tagged(FilesOf(s.txs[w].request), w)
    && OutcomeEvents(s) == Logged(EventsOf(s.txs[w].request, s.row.status, s.row.status), w)
  }

  ghost predicate Inv(s: State) {
    && (s.lock.Some? ==> s.lock.value < |s.txs| && s.txs[s.lock.value].pc.Holding?)
    && (forall i :: 0 <= i < |s.txs| ==> TxOk(s, i))
    && (if Terminal(s.row.status) then s.lock.None? && exists w :: ClosedBy(s, w) else OpenOk(s))
  }

  lemma EventsConcat(s: State, more: seq<Event>)
    ensures OutcomeEvents(s.(events := s.events + more)) == OutcomeEvents(s) + Filter(IsOutcomeEvent, more)
  {
    FilterConcat(IsOutcomeEvent, s.events, more);
  }

  lemma OneEvent(e: Event)
    ensures Filter(IsOutcomeEvent, [e]) == if IsOutcome(e.kind) then [e] else []
  {
    assert [e][1..] == [];
  }

  lemma RequestEvents(request: Request, before: RunStatus, seen: RunStatus, tx: nat)
    ensures Filter(IsOutcomeEvent, Logged(EventsOf(request, before, seen), tx))
      == if request.SubmitMetadata? then [] else Logged(EventsOf(request, before, seen), tx)
  {
    var events := EventsOf(request, before, seen);
    if events != [] {
      OneEvent(Event(events[0], Some(tx)));
      assert Logged(events, tx) == [Event(events[0], Some(tx))];
    }
  }

  /** A step that neither commits nor moves the row. */
  predicate Quiet(s: State, t: State, i: nat) {
    && i < |s.txs| == |t.txs|
    && t.row == s.row && t.events == s.events && t.artifacts == s.artifacts
    && t.txs[i].request == s.txs[i].request && !Winner(t.txs[i]) && !Winner(s.txs[i])
    && (forall n :: 0 <= n < |s.txs| && n != i ==> t.txs[n] == s.txs[n])
    && (t.lock == s.lock
        || (s.lock == Some(i) && t.lock.None?)
        || (s.lock.None? && t.lock == Some(i) && !Terminal(s.row.status)))
  }

  lemma QuietKeepsInv(s: State, t: State, i: nat)
    requires Inv(s) && Quiet(s, t, i) && TxOk(t, i)
    requires t.lock == Some(i) <==> t.txs[i].pc.Holding?
    ensures Inv(t)
  {
    forall n | 0 <= n < |t.txs|
      ensures TxOk(t, n)
    {
      if n != i {
        assert TxOk(s, n);
      }
    }
    if Terminal(s.row.status) {
      var w :| ClosedBy(s, w);
      assert ClosedBy(t, w);
    }
  }

  predicate AtCommit(s: State, i: nat) {
    i < |s.txs| && s.txs[i].pc.Holding? && s.txs[i].pc.stage.EventIn?
  }

  lemma CommitCloses(s: State, i: nat)
    requires Inv(s) && AtCommit(s, i) && !s.txs[i].request.SubmitMetadata?
    ensures Terminal(Continue(s, i).row.status) && ClosedBy(Continue(s, i), i)
  {
    var t := Continue(s, i);
    var tx := s.txs[i];
    assert TxOk(s, i);
    EventsConcat(s, Logged(tx.pc.events, i));
    RequestEvents(tx.request, tx.pc.before, tx.pc.seen, i);
    assert OutcomeEvents(t) == OutcomeEvents(s.(events := s.events + Logged(tx.pc.events, i)));
    assert EventsOf(tx.request, tx.pc.before, tx.pc.seen) == EventsOf(tx.request, t.row.status, t.row.status);
    assert forall n :: 0 <= n < |t.txs| && n != i ==> t.txs[n] == s.txs[n];
  }

  lemma CommitAnnotates(s: State, i: nat)
    requires Inv(s) && AtCommit(s, i) && s.txs[i].request.SubmitMetadata?
    ensures !Terminal(Continue(s, i).row.status) && OpenOk(Continue(s, i))
  {
    var t := Continue(s, i);
    var tx := s.txs[i];
    assert TxOk(s, i);
    EventsConcat(s, Logged(tx.pc.events, i));
    RequestEvents(tx.request, tx.pc.before, tx.pc.seen, i);
    assert OutcomeEvents(t) == OutcomeEvents(s.(events := s.events + Logged(tx.pc.events, i)));
    assert Tagged([], i) == [];
    assert forall n :: 0 <= n < |t.txs| && n != i ==> t.txs[n] == s.txs[n];
  }

  lemma CommitKeepsInv(s: State, i: nat)
    requires Inv(s) && AtCommit(s, i)
    ensures Inv(Continue(s, i))
  {
    var t := Continue(s, i);
    assert TxOk(s, i);
    if s.txs[i].request.SubmitMetadata? {
      CommitAnnotates(s, i);
    } else {
      CommitCloses(s, i);
    }
    forall n | 0 <= n < |t.txs|
      ensures TxOk(t, n)
    {
      if n != i {
        assert t.txs[n] == s.txs[n];
        assert TxOk(s, n);
      }
    }
  }

  lemma StepKeepsInv(s: State, i: nat, ok: bool)
    requires Inv(s) && i < |s.txs| && Take(s, i, ok).Some?
    ensures Inv(Take(s, i, ok).value)
  {
    var t := Take(s, i, ok).value;
    assert TxOk(s, i);
    if ok && AtCommit(s, i) {
      CommitKeepsInv(s, i);
    } else {
      QuietKeepsInv(s, t, i);
    }
  }

  lemma NextKeepsInv(s: State, a: Action)
    requires Inv(s) && Next(s, a).Some? && Harmless(s, a)
    ensures Inv(Next(s, a).value)
  {
    var t := Next(s, a).value;
    match a
    case Step(i, ok) =>
      StepKeepsInv(s, i, ok);
    case Arrive(_) =>
      assert forall i :: 0 <= i < |s.txs| ==> TxOk(s, i) && t.txs[i] == s.txs[i];
      assert forall i :: 0 <= i < |t.txs| ==> TxOk(t, i);
      if Terminal(s.row.status) {
        var w :| ClosedBy(s, w);
        assert ClosedBy(t, w);
      }
    case Append(kind, at) =>
      EventsConcat(s, [Event(kind, None)]);
      OneEvent(Event(kind, None));
      assert OutcomeEvents(t) == OutcomeEvents(s);
      forall i | 0 <= i < |t.txs|
        ensures TxOk(t, i)
      {
        assert TxOk(s, i);
      }
      if Terminal(s.row.status) {
        var w :| ClosedBy(s, w);
        assert ClosedBy(t, w);
      }
  }

  lemma {:induction false} OutcomeKeepsInv(s: State, actions: seq<Action>)
    requires Inv(s) && Outcome(s, actions).Some?
    ensures Inv(Outcome(s, actions).value)
    decreases |actions|
  {
    if actions != [] {
      NextKeepsInv(s, actions[0]);
      OutcomeKeepsInv(Next(s, actions[0]).value, actions[1..]);
    }
  }
}
