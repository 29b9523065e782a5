/** Idempotent initialization of hosted attempts: optimistic lookup, an expiring
    Redis lock, and an insert protected by a unique index with recovery. Any
    number of callers interleave, one step per await. */
module AttemptInitialization {
  import opened Collections

  /** Run and case together identify an attempt; the lock key adds the revision. */
  type Key = (int, int)
  type LockKey = (Key, int)

  /** How many sessions a benchmark revision has; a suite has at least one. */
  datatype Suites = Suites(sessionCount: int -> nat)

  ghost predicate SuitesOk(suites: Suites) {
    forall revision :: suites.sessionCount(revision) > 0
  }

  datatype Row = Row(key: Key, revision: int, sessions: nat)

  const POLLS: nat := 100

  datatype Pc =
    | FindFirst
    | Acquire
    | FindSecond
    | Recover(polls: nat, leased: bool)
    | Create(leased: bool)
    | InsertSessions(id: nat, leased: bool)
    | Created(id: nat, leased: bool)
    | Release(result: Option<nat>)
    | Done(id: nat)
    | Threw

  datatype Caller = Caller(key: Key, revision: int, pc: Pc)

  datatype State = State(rows: seq<Row>, callers: seq<Caller>, locks: map<LockKey, nat>)

  /** `Alternative` is an unreachable Redis at the lock, and the two-statement
      insert at the creation; `Throws` any error; `Crashes` a lost process. */
  datatype Event = Proceed | Alternative | Throws | Crashes

  datatype Action = Arrive(key: Key, revision: int) | Step(caller: nat, event: Event) | Expire(lock: LockKey)

  function LockOf(c: Caller): LockKey {
    (c.key, c.revision)
  }

  /** The attempt row of a key: the unique index allows one, the query takes the first. */
  function FindRow(rows: seq<Row>, key: Key): (found: Option<nat>)
    ensures found.Some? ==> found.value < |rows| && rows[found.value].key == key
    ensures found.None? ==> forall r :: 0 <= r < |rows| ==> rows[r].key != key
  {
    FindRowFrom(rows, key, 0)
  }

  function FindRowFrom(rows: seq<Row>, key: Key, from: nat): (found: Option<nat>)
    requires from <= |rows|
    ensures found.Some? ==> from <= found.value < |rows| && rows[found.value].key == key
    ensures found.None? ==> forall r :: from <= r < |rows| ==> rows[r].key != key
    decreases |rows| - from
  {
    if from == |rows| then None
    else if rows[from].key == key then Some(from)
    else FindRowFrom(rows, key, from + 1)
  }

  function At(s: State, i: nat, pc: Pc): State
    requires i < |s.callers|
  {
    s.(callers := s.callers[i := s.callers[i].(pc := pc)])
  }

  /** Leaving with a result or an error: through the `finally` when leased. */
  function Leave(leased: bool, result: Option<nat>): Pc {
    if leased then Release(result)
    else if result.Some? then Done(result.value)
    else Threw
  }

  predicate Leased(pc: Pc) {
    pc.FindSecond? || ((pc.Recover? || pc.Create? || pc.InsertSessions? || pc.Created?) && pc.leased)
  }

  predicate Finished(pc: Pc) {
    pc.Done? || pc.Threw?
  }

  /** `findExisting`: a row of another revision is refused. */
  function Find(s: State, i: nat, leased: bool, otherwise: Pc): State
    requires i < |s.callers|
  {
    var c := s.callers[i];
    var found := FindRow(s.rows, c.key);
    if found.None? then At(s, i, otherwise)
    else if s.rows[found.value].revision != c.revision then At(s, i, Leave(leased, None))
    else At(s, i, Recover(POLLS, leased))
  }

  function Take(suites: Suites, s: State, i: nat, e: Event): Option<State>
    requires i < |s.callers|
  {
    var c := s.callers[i];
    if Finished(c.pc) then None
    else if e.Crashes? then Some(At(s, i, Threw))
    else if e.Throws? then Some(At(s, i, if Leased(c.pc) then Release(None) else Threw))
    else
      match (c.pc, e)
      case (FindFirst, Proceed) => Some(Find(s, i, false, Acquire))
      case (Acquire, Alternative) => Some(At(s, i, Create(false)))
      case (Acquire, Proceed) =>
        if LockOf(c) in s.locks then Some(At(s, i, Recover(POLLS, false)))
        else Some(At(s.(locks := s.locks[LockOf(c) := i]), i, FindSecond))
      case (FindSecond, Proceed) => Some(Find(s, i, true, Create(true)))
      case (Recover(polls, leased), Proceed) =>
        var found := FindRow(s.rows, c.key);
        if polls == 0 then Some(At(s, i, Leave(leased, None)))
        else if found.Some? && s.rows[found.value].sessions == suites.sessionCount(c.revision) then
          Some(At(s, i, Leave(leased, found)))
        else Some(At(s, i, Recover(polls - 1, leased)))
      case (Create(leased), _) =>
        if FindRow(s.rows, c.key).Some? then Some(At(s, i, Recover(POLLS, leased)))
        else
          var count := if e.Proceed? then suites.sessionCount(c.revision) else 0;
          Some(At(s.(rows := s.rows + [Row(c.key, c.revision, count)]), i,
            if e.Proceed? then Created(|s.rows|, leased) else InsertSessions(|s.rows|, leased)))
      case (InsertSessions(id, leased), Proceed) =>
        if id < |s.rows| then
          Some(At(s.(rows := s.rows[id := s.rows[id].(sessions := suites.sessionCount(c.revision))]), i, Created(id, leased)))
        else None
      case (Created(id, leased), Proceed) => Some(At(s, i, Leave(leased, Some(id))))
      case (Release(result), Proceed) =>
        var locks := if LockOf(c) in s.locks && s.locks[LockOf(c)] == i then s.locks - {LockOf(c)} else s.locks;
        Some(At(s.(locks := locks), i, if result.Some? then Done(result.value) else Threw))
      case _ => None
  }

  function Next(suites: Suites, s: State, a: Action): Option<State> {
    match a
    case Arrive(key, revision) => Some(s.(callers := s.callers + [Caller(key, revision, FindFirst)]))
    case Step(i, e) => if i < |s.callers| then Take(suites, s, i, e) else None
    case Expire(lock) => Some(s.(locks := s.locks - {lock}))
  }

  function Run(suites: Suites, s: State, actions: seq<Action>): Option<State>
    decreases |actions|
  {
    if actions == [] then Some(s)
    else
      var next := Next(suites, s, actions[0]);
      if next.None? then None else Run(suites, next.value, actions[1..])
  }

  const INITIAL: State := State([], [], map[])

  // The invariant -----------------------------------------------------------------

  ghost predicate RowOk(suites: Suites, s: State, r: nat)
    requires r < |s.rows|
  {
    && (s.rows[r].sessions == 0 || s.rows[r].sessions == suites.sessionCount(s.rows[r].revision))
    && exists i :: 0 <= i < |s.callers| && s.callers[i].key == s.rows[r].key && s.callers[i].revision == s.rows[r].revision
  }

  /** The caller's result is the row of its key, with its full set of sessions. */
  ghost predicate Holds(suites: Suites, s: State, c: Caller, id: nat) {
    id < |s.rows| && s.rows[id].key == c.key && s.rows[id].sessions == suites.sessionCount(c.revision)
  }

  ghost predicate CallerOk(suites: Suites, s: State, c: Caller) {
    match c.pc
    case Done(id) => Holds(suites, s, c, id)
    case Release(result) => result.Some? ==> Holds(suites, s, c, result.value)
    case Created(id, _) => Holds(suites, s, c, id) && s.rows[id].revision == c.revision
    case InsertSessions(id, _) => id < |s.rows| && s.rows[id].key == c.key && s.rows[id].revision == c.revision
    case Recover(polls, _) => polls <= POLLS
    case _ => true
  }

  ghost predicate OneRowPerKey(s: State) {
    forall q, r :: 0 <= q < r < |s.rows| ==> s.rows[q].key != s.rows[r].key
  }

  ghost predicate Inv(suites: Suites, s: State) {
    && OneRowPerKey(s)
    && (forall r :: 0 <= r < |s.rows| ==> RowOk(suites, s, r))
    && (forall i :: 0 <= i < |s.callers| ==> CallerOk(suites, s, s.callers[i]))
  }

  /** Rows are only added, and only gain their sessions. */
  ghost predicate RowsGrow(suites: Suites, s: State, t: State) {
    && |s.rows| <= |t.rows|
    && forall r :: 0 <= r < |s.rows| ==>
      && t.rows[r].key == s.rows[r].key && t.rows[r].revision == s.rows[r].revision
      && (t.rows[r] == s.rows[r] || t.rows[r].sessions == suites.sessionCount(s.rows[r].revision))
  }

  ghost predicate CallersStay(s: State, t: State) {
    && |s.callers| <= |t.callers|
    && forall i :: 0 <= i < |s.callers| ==>
      t.callers[i].key == s.callers[i].key && t.callers[i].revision == s.callers[i].revision
  }

  lemma NextGrows(suites: Suites, s: State, a: Action)
    requires Inv(suites, s) && Next(suites, s, a).Some?
    ensures RowsGrow(suites, s, Next(suites, s, a).value) && CallersStay(s, Next(suites, s, a).value)
  {
    if a.Step? {
      assert CallerOk(suites, s, s.callers[a.caller]);
    }
  }

  lemma HoldsStays(suites: Suites, s: State, t: State, c: Caller)
    requires Inv(suites, s) && SuitesOk(suites) && RowsGrow(suites, s, t) && CallerOk(suites, s, c)
    ensures CallerOk(suites, t, c)
  {
    forall r | 0 <= r < |s.rows|
      ensures s.rows[r].sessions == suites.sessionCount(c.revision) ==> t.rows[r].sessions == s.rows[r].sessions
    {
      assert RowOk(suites, s, r);
    }
  }

  lemma RowOkStays(suites: Suites, s: State, t: State, r: nat)
    requires r < |s.rows| && RowOk(suites, s, r) && RowsGrow(suites, s, t) && CallersStay(s, t)
    ensures RowOk(suites, t, r)
  {
    var i :| 0 <= i < |s.callers| && s.callers[i].key == s.rows[r].key && s.callers[i].revision == s.rows[r].revision;
    assert t.callers[i].key == t.rows[r].key && t.callers[i].revision == t.rows[r].revision;
  }

  /** The moving caller alone: what it ends up holding. */
  lemma MoverOk(suites: Suites, s: State, i: nat, e: Event)
    requires Inv(suites, s) && i < |s.callers| && Take(suites, s, i, e).Some?
    ensures CallerOk(suites, Take(suites, s, i, e).value, Take(suites, s, i, e).value.callers[i])
  {
    assert CallerOk(suites, s, s.callers[i]);
  }

  lemma RowsAfter(suites: Suites, s: State, a: Action)
    requires Inv(suites, s) && Next(suites, s, a).Some?
    ensures var t := Next(suites, s, a).value;
      OneRowPerKey(t) && forall r :: |s.rows| <= r < |t.rows| ==> RowOk(suites, t, r)
  {
    var t := Next(suites, s, a).value;
    if a.Step? {
      assert CallerOk(suites, s, s.callers[a.caller]);
      if |t.rows| > |s.rows| {
        var c := t.callers[a.caller];
        assert t.rows[|s.rows|].key == c.key && t.rows[|s.rows|].revision == c.revision;
      }
    }
  }

  lemma NextKeepsInv(suites: Suites, s: State, a: Action)
    requires Inv(suites, s) && SuitesOk(suites) && Next(suites, s, a).Some?
    ensures Inv(suites, Next(suites, s, a).value)
  {
    var t := Next(suites, s, a).value;
    NextGrows(suites, s, a);
    RowsAfter(suites, s, a);
    forall r | 0 <= r < |t.rows|
      ensures RowOk(suites, t, r)
    {
      if r < |s.rows| {
        RowOkStays(suites, s, t, r);
      }
    }
    forall i | 0 <= i < |t.callers|
      ensures CallerOk(suites, t, t.callers[i])
    {
      if a.Step? && a.caller == i {
        MoverOk(suites, s, i, a.event);
      } else if i < |s.callers| {
        assert t.callers[i] == s.callers[i];
        HoldsStays(suites, s, t, s.callers[i]);
      }
    }
  }

  lemma {:induction false} RunKeepsInv(suites: Suites, s: State, actions: seq<Action>)
    requires Inv(suites, s) && SuitesOk(suites) && Run(suites, s, actions).Some?
    ensures Inv(suites, Run(suites, s, actions).value)
    decreases |actions|
  {
    if actions != [] {
      NextKeepsInv(suites, s, actions[0]);
      RunKeepsInv(suites, Next(suites, s, actions[0]).value, actions[1..]);
    }
  }

  // Guarantees ----------------------------------------------------------------------

  /** Two callers for the same run and case that have both returned. */
  predicate BothReturned(a: Caller, b: Caller) {
    a.pc.Done? && b.pc.Done? && a.key == b.key
  }

  /** After any interleaving: at most one attempt per run and case, and every
      caller that returned holds that attempt with a full set of sessions. */
  lemma InitializationIsIdempotent(suites: Suites, actions: seq<Action>, i: nat, j: nat)
    requires SuitesOk(suites) && Run(suites, INITIAL, actions).Some?
    ensures var t := Run(suites, INITIAL, actions).value;
      && OneRowPerKey(t)
      && (i < |t.callers| && t.callers[i].pc.Done? ==> Holds(suites, t, t.callers[i], t.callers[i].pc.id))
      && (i < |t.callers| && j < |t.callers| && BothReturned(t.callers[i], t.callers[j]) ==>
           t.callers[i].pc.id == t.callers[j].pc.id)
  {
    RunKeepsInv(suites, INITIAL, actions);
  }

  /** Of two callers for one attempt with equally long suites, both ask for the
      same revision. */
  ghost predicate RevisionsAgree(suites: Suites, callers: seq<Caller>) {
    forall i, j :: 0 <= i < |callers| && 0 <= j < |callers| && Confusable(suites, callers[i], callers[j]) ==>
      callers[i].revision == callers[j].revision
  }

  predicate Confusable(suites: Suites, a: Caller, b: Caller) {
    a.key == b.key && suites.sessionCount(a.revision) == suites.sessionCount(b.revision)
  }

  ghost predicate ReturnsOwnRevision(s: State) {
    forall i :: 0 <= i < |s.callers| && s.callers[i].pc.Done? ==>
      s.callers[i].pc.id < |s.rows| && s.rows[s.callers[i].pc.id].revision == s.callers[i].revision
  }

  lemma AgreementGivesOwnRevision(suites: Suites, s: State)
    requires SuitesOk(suites) && Inv(suites, s) && RevisionsAgree(suites, s.callers)
    ensures ReturnsOwnRevision(s)
  {
    forall i | 0 <= i < |s.callers| && s.callers[i].pc.Done?
      ensures s.callers[i].pc.id < |s.rows| && s.rows[s.callers[i].pc.id].revision == s.callers[i].revision
    {
      var c := s.callers[i];
      assert CallerOk(suites, s, c) && RowOk(suites, s, c.pc.id);
      var k :| 0 <= k < |s.callers| && s.callers[k].key == c.key && s.callers[k].revision == s.rows[c.pc.id].revision;
      assert suites.sessionCount(s.callers[k].revision) == suites.sessionCount(c.revision);
    }
  }

  lemma {:induction false} RunExtends(suites: Suites, s: State, actions: seq<Action>, a: Action)
    requires Run(suites, s, actions).Some?
    ensures Run(suites, s, actions + [a]) == Next(suites, Run(suites, s, actions).value, a)
    decreases |actions|
  {
    if actions == [] {
      assert actions + [a] == [a];
      assert Next(suites, s, a).Some? ==> Run(suites, Next(suites, s, a).value, [a][1..]) == Next(suites, s, a);
    } else {
      RunExtends(suites, Next(suites, s, actions[0]).value, actions[1..], a);
      assert (actions + [a])[1..] == actions[1..] + [a];
    }
  }

  function Fresh(arrivals: seq<(Key, int)>): seq<Caller> {
    seq(|arrivals|, i requires 0 <= i < |arrivals| => Caller(arrivals[i].0, arrivals[i].1, FindFirst))
  }

  lemma AllArrive(suites: Suites, arrivals: seq<(Key, int)>) returns (actions: seq<Action>)
    ensures Run(suites, INITIAL, actions) == Some(State([], Fresh(arrivals), map[]))
  {
    actions := [];
    assert Fresh(arrivals[..0]) == [];
    for n := 0 to |arrivals|
      invariant Run(suites, INITIAL, actions) == Some(State([], Fresh(arrivals[..n]), map[]))
    {
      RunExtends(suites, INITIAL, actions, Arrive(arrivals[n].0, arrivals[n].1));
      actions := actions + [Arrive(arrivals[n].0, arrivals[n].1)];
      assert Fresh(arrivals[..n + 1]) == Fresh(arrivals[..n]) + [Caller(arrivals[n].0, arrivals[n].1, FindFirst)];
    }
    assert arrivals[..|arrivals|] == arrivals;
  }

  ghost predicate ArrivedAs(s: State, arrivals: seq<(Key, int)>) {
    && |s.callers| == |arrivals|
    && forall i :: 0 <= i < |arrivals| ==> s.callers[i].key == arrivals[i].0 && s.callers[i].revision == arrivals[i].1
  }

  /** The step schedule of the race: both callers look up before either creates,
      Redis is unreachable for both, and the loser recovers the winner's row. */
  function RaceStep(i: nat, j: nat, n: nat): Action {
    match n
    case 0 => Step(i, Proceed)
    case 1 => Step(j, Proceed)
    case 2 => Step(i, Alternative)
    case 3 => Step(j, Alternative)
    case 4 => Step(i, Proceed)
    case 5 => Step(j, Proceed)
    case _ => Step(j, Proceed)
  }

  function RacePcs(n: nat): (Pc, Pc) {
    match n
    case 0 => (FindFirst, FindFirst)
    case 1 => (Acquire, FindFirst)
    case 2 => (Acquire, Acquire)
    case 3 => (Create(false), Acquire)
    case 4 => (Create(false), Create(false))
    case 5 => (Created(0, false), Create(false))
    case 6 => (Created(0, false), Recover(POLLS, false))
    case _ => (Created(0, false), Done(0))
  }

  ghost predicate RaceAt(suites: Suites, arrivals: seq<(Key, int)>, i: nat, j: nat, n: nat, s: State) {
    && i < |arrivals| && j < |arrivals| && ArrivedAs(s, arrivals)
    && s.rows == (if n <= 4 then [] else [Row(arrivals[i].0, arrivals[i].1, suites.sessionCount(arrivals[i].1))])
    && (s.callers[i].pc, s.callers[j].pc) == RacePcs(n)
  }

  lemma RaceAdvances(suites: Suites, arrivals: seq<(Key, int)>, i: nat, j: nat, n: nat, s: State)
    requires n < 7 && RaceAt(suites, arrivals, i, j, n, s) && i != j
    requires arrivals[i].0 == arrivals[j].0
    requires suites.sessionCount(arrivals[i].1) == suites.sessionCount(arrivals[j].1)
    ensures Next(suites, s, RaceStep(i, j, n)).Some?
    ensures RaceAt(suites, arrivals, i, j, n + 1, Next(suites, s, RaceStep(i, j, n)).value)
  {
  }

  /** Agreement on the revision is exactly what guarantees the own revision: for
      any other set of callers some interleaving hands out a foreign attempt,
      because recovery compares the number of sessions and not the revision. */
  lemma OwnRevisionIffAgreement(suites: Suites, arrivals: seq<(Key, int)>)
    requires SuitesOk(suites)
    ensures RevisionsAgree(suites, Fresh(arrivals)) <==>
      forall actions :: RunsAs(suites, arrivals, actions) ==> ReturnsOwnRevision(Run(suites, INITIAL, actions).value)
  {
    if RevisionsAgree(suites, Fresh(arrivals)) {
      forall actions | RunsAs(suites, arrivals, actions)
        ensures ReturnsOwnRevision(Run(suites, INITIAL, actions).value)
      {
        RunKeepsInv(suites, INITIAL, actions);
        var t := Run(suites, INITIAL, actions).value;
        forall i, j | 0 <= i < |t.callers| && 0 <= j < |t.callers| && Confusable(suites, t.callers[i], t.callers[j])
          ensures t.callers[i].revision == t.callers[j].revision
        {
          assert Confusable(suites, Fresh(arrivals)[i], Fresh(arrivals)[j]);
        }
        AgreementGivesOwnRevision(suites, t);
      }
    } else {
      var i, j :| 0 <= i < |arrivals| && 0 <= j < |arrivals|
        && Confusable(suites, Fresh(arrivals)[i], Fresh(arrivals)[j]) && arrivals[i].1 != arrivals[j].1;
      var actions := AllArrive(suites, arrivals);
      for n := 0 to 7
        invariant Run(suites, INITIAL, actions).Some?
        invariant RaceAt(suites, arrivals, i, j, n, Run(suites, INITIAL, actions).value)
      {
        RaceAdvances(suites, arrivals, i, j, n, Run(suites, INITIAL, actions).value);
        RunExtends(suites, INITIAL, actions, RaceStep(i, j, n));
        actions := actions + [RaceStep(i, j, n)];
      }
      assert RunsAs(suites, arrivals, actions);
      assert !ReturnsOwnRevision(Run(suites, INITIAL, actions).value);
    }
  }

  ghost predicate RunsAs(suites: Suites, arrivals: seq<(Key, int)>, actions: seq<Action>) {
    Run(suites, INITIAL, actions).Some? && ArrivedAs(Run(suites, INITIAL, actions).value, arrivals)
  }

  // Locks -----------------------------------------------------------------------------

  /** A lock that a caller holds is freed by that caller's release or by expiry,
      never by the late release of an earlier owner. */
  lemma OnlyOwnerOrExpiryFrees(suites: Suites, s: State, a: Action, lock: LockKey)
    requires Next(suites, s, a).Some? && lock in s.locks
    requires lock !in Next(suites, s, a).value.locks || Next(suites, s, a).value.locks[lock] != s.locks[lock]
    ensures a == Expire(lock) || (a == Step(s.locks[lock], Proceed) && s.callers[s.locks[lock]].pc.Release?)
  {
  }

  /** Between acquiring the lock and the end of the `finally`. */
  predicate Inside(c: Caller, lock: LockKey) {
    LockOf(c) == lock && (Leased(c.pc) || c.pc.Release?)
  }

  ghost predicate InsideOwns(s: State, lock: LockKey) {
    forall i :: 0 <= i < |s.callers| && Inside(s.callers[i], lock) ==> lock in s.locks && s.locks[lock] == i
  }

  /** The moving caller is inside only if it was before or has just acquired. */
  lemma MoverOwns(suites: Suites, s: State, i: nat, e: Event, lock: LockKey)
    requires InsideOwns(s, lock) && i < |s.callers| && Take(suites, s, i, e).Some?
    ensures var t := Take(suites, s, i, e).value;
      Inside(t.callers[i], lock) ==> lock in t.locks && t.locks[lock] == i
  {
    var c := s.callers[i];
    assert Inside(c, lock) ==> lock in s.locks && s.locks[lock] == i;
  }

  lemma NextKeepsOwner(suites: Suites, s: State, a: Action, lock: LockKey)
    requires InsideOwns(s, lock) && Next(suites, s, a).Some? && a != Expire(lock)
    ensures InsideOwns(Next(suites, s, a).value, lock)
  {
    var t := Next(suites, s, a).value;
    forall i | 0 <= i < |t.callers| && Inside(t.callers[i], lock)
      ensures lock in t.locks && t.locks[lock] == i
    {
      if a.Step? && a.caller == i {
        MoverOwns(suites, s, i, a.event, lock);
      } else if i < |s.callers| {
        assert t.callers[i] == s.callers[i];
        if lock !in t.locks || t.locks[lock] != s.locks[lock] {
          OnlyOwnerOrExpiryFrees(suites, s, a, lock);
        }
      }
    }
  }

  lemma {:induction false} RunKeepsOwner(suites: Suites, s: State, actions: seq<Action>, lock: LockKey)
    requires InsideOwns(s, lock) && Run(suites, s, actions).Some? && Expire(lock) !in actions
    ensures InsideOwns(Run(suites, s, actions).value, lock)
    decreases |actions|
  {
    if actions != [] {
      NextKeepsOwner(suites, s, actions[0], lock);
      RunKeepsOwner(suites, Next(suites, s, actions[0]).value, actions[1..], lock);
    }
  }

  /** As long as a lock does not expire, at most one caller works under it, and the
      lock is that caller's: no late release and no second acquisition gets between. */
  lemma LockExcludes(suites: Suites, actions: seq<Action>, lock: LockKey, i: nat, j: nat)
    requires Run(suites, INITIAL, actions).Some? && Expire(lock) !in actions
    ensures var t := Run(suites, INITIAL, actions).value;
      && (i < |t.callers| && Inside(t.callers[i], lock) ==> lock in t.locks && t.locks[lock] == i)
      && (i < |t.callers| && j < |t.callers| && Inside(t.callers[i], lock) && Inside(t.callers[j], lock) ==> i == j)
  {
    RunKeepsOwner(suites, INITIAL, actions, lock);
  }

  /** One expiry is enough to let a second caller in. */
  lemma ExpiryAdmitsTwo(suites: Suites, lock: LockKey) returns (actions: seq<Action>)
    ensures Run(suites, INITIAL, actions).Some?
    ensures var t := Run(suites, INITIAL, actions).value;
      |t.callers| == 2 && Inside(t.callers[0], lock) && Inside(t.callers[1], lock)
  {
    var schedule := [Arrive(lock.0, lock.1), Arrive(lock.0, lock.1), Step(0, Proceed), Step(0, Proceed), Expire(lock),
                     Step(1, Proceed), Step(1, Proceed)];
    actions := [];
    for n := 0 to 7
      invariant Run(suites, INITIAL, actions).Some?
      invariant Run(suites, INITIAL, actions).value == ExpiryAt(lock, n)
    {
      RunExtends(suites, INITIAL, actions, schedule[n]);
      actions := actions + [schedule[n]];
    }
  }

  /** The states of the run in which a lock expires under its owner. */
  function ExpiryAt(lock: LockKey, n: nat): State {
    var c := (pc: Pc) => Caller(lock.0, lock.1, pc);
    match n
    case 0 => INITIAL
    case 1 => State([], [c(FindFirst)], map[])
    case 2 => State([], [c(FindFirst), c(FindFirst)], map[])
    case 3 => State([], [c(Acquire), c(FindFirst)], map[])
    case 4 => State([], [c(FindSecond), c(FindFirst)], map[lock := 0])
    case 5 => State([], [c(FindSecond), c(FindFirst)], map[])
    case 6 => State([], [c(FindSecond), c(Acquire)], map[])
    case _ => State([], [c(FindSecond), c(FindSecond)], map[lock := 1])
  }

  // Creating under the lock ---------------------------------------------------------------

  /** The lock could be asked for by everyone. */
  predicate LocksReachable(suites: Suites, s: State, actions: seq<Action>)
    decreases |actions|
  {
    actions != [] ==>
      && !LockUnreachable(s, actions[0])
      && (Next(suites, s, actions[0]).Some? ==> LocksReachable(suites, Next(suites, s, actions[0]).value, actions[1..]))
  }

  predicate LockUnreachable(s: State, a: Action) {
    a.Step? && a.event.Alternative? && a.caller < |s.callers| && s.callers[a.caller].pc.Acquire?
  }

  predicate Creating(pc: Pc) {
    pc.Create? || pc.InsertSessions? || pc.Created?
  }

  ghost predicate CreatorsLeased(s: State) {
    forall i :: 0 <= i < |s.callers| && Creating(s.callers[i].pc) ==> Leased(s.callers[i].pc)
  }

  lemma NextKeepsLeased(suites: Suites, s: State, a: Action)
    requires CreatorsLeased(s) && Next(suites, s, a).Some? && !LockUnreachable(s, a)
    ensures CreatorsLeased(Next(suites, s, a).value)
  {
    var t := Next(suites, s, a).value;
    forall i | 0 <= i < |t.callers| && Creating(t.callers[i].pc)
      ensures Leased(t.callers[i].pc)
    {
      if i < |s.callers| && !(a.Step? && a.caller == i) {
        assert t.callers[i] == s.callers[i];
      }
    }
  }

  lemma {:induction false} RunKeepsLeased(suites: Suites, s: State, actions: seq<Action>)
    requires CreatorsLeased(s) && Run(suites, s, actions).Some? && LocksReachable(suites, s, actions)
    ensures CreatorsLeased(Run(suites, s, actions).value)
    decreases |actions|
  {
    if actions != [] {
      NextKeepsLeased(suites, s, actions[0]);
      RunKeepsLeased(suites, Next(suites, s, actions[0]).value, actions[1..]);
    }
  }

  /** With a reachable lock that does not expire, only its owner creates: whoever finds
      it taken recovers instead. */
  lemma OnlyOwnerCreates(suites: Suites, actions: seq<Action>, lock: LockKey, i: nat)
    requires Run(suites, INITIAL, actions).Some? && Expire(lock) !in actions && LocksReachable(suites, INITIAL, actions)
    ensures var t := Run(suites, INITIAL, actions).value;
      i < |t.callers| && LockOf(t.callers[i]) == lock && Creating(t.callers[i].pc) ==> lock in t.locks && t.locks[lock] == i
  {
    RunKeepsLeased(suites, INITIAL, actions);
    LockExcludes(suites, actions, lock, i, i);
  }

  // Giving the lock back --------------------------------------------------------------------

  predicate OwnerWorks(s: State, lock: LockKey) {
    lock in s.locks ==>
      var i := s.locks[lock];
      i < |s.callers| && LockOf(s.callers[i]) == lock && (Inside(s.callers[i], lock) || s.callers[i].pc.Threw?)
  }

  ghost predicate OwnersWork(s: State) {
    forall lock :: OwnerWorks(s, lock)
  }

  lemma StepKeepsWorking(suites: Suites, s: State, i: nat, e: Event, lock: LockKey)
    requires OwnerWorks(s, lock) && i < |s.callers| && Take(suites, s, i, e).Some?
    ensures OwnerWorks(Take(suites, s, i, e).value, lock)
  {
  }

  lemma NextKeepsWorking(suites: Suites, s: State, a: Action)
    requires OwnersWork(s) && Next(suites, s, a).Some?
    ensures OwnersWork(Next(suites, s, a).value)
  {
    forall lock
      ensures OwnerWorks(Next(suites, s, a).value, lock)
    {
      assert OwnerWorks(s, lock);
      if a.Step? {
        StepKeepsWorking(suites, s, a.caller, a.event, lock);
      }
    }
  }

  lemma {:induction false} RunKeepsWorking(suites: Suites, s: State, actions: seq<Action>)
    requires OwnersWork(s) && Run(suites, s, actions).Some?
    ensures OwnersWork(Run(suites, s, actions).value)
    decreases |actions|
  {
    if actions != [] {
      NextKeepsWorking(suites, s, actions[0]);
      RunKeepsWorking(suites, Next(suites, s, actions[0]).value, actions[1..]);
    }
  }

  /** Caller `i` is lost, or its release itself fails. */
  predicate LosesLease(s: State, a: Action, i: nat) {
    a == Step(i, Crashes) || (a == Step(i, Throws) && i < |s.callers| && s.callers[i].pc.Release?)
  }

  predicate KeepsLease(suites: Suites, s: State, actions: seq<Action>, i: nat)
    decreases |actions|
  {
    actions != [] ==>
      && !LosesLease(s, actions[0], i)
      && (Next(suites, s, actions[0]).Some? ==> KeepsLease(suites, Next(suites, s, actions[0]).value, actions[1..], i))
  }

  predicate OwnerInside(s: State, lock: LockKey, i: nat) {
    lock in s.locks && s.locks[lock] == i ==> i < |s.callers| && Inside(s.callers[i], lock)
  }

  lemma OwnStepKeepsInside(suites: Suites, s: State, e: Event, lock: LockKey, i: nat)
    requires OwnerInside(s, lock, i) && i < |s.callers| && Take(suites, s, i, e).Some?
    requires !e.Crashes? && !(e.Throws? && s.callers[i].pc.Release?)
    ensures OwnerInside(Take(suites, s, i, e).value, lock, i)
  {
  }

  lemma OtherStepKeepsInside(suites: Suites, s: State, j: nat, e: Event, lock: LockKey, i: nat)
    requires OwnerInside(s, lock, i) && j < |s.callers| && j != i && Take(suites, s, j, e).Some?
    ensures OwnerInside(Take(suites, s, j, e).value, lock, i)
  {
    var t := Take(suites, s, j, e).value;
    assert i < |s.callers| ==> t.callers[i] == s.callers[i];
    assert lock in t.locks && t.locks[lock] == i ==> lock in s.locks && s.locks[lock] == i;
  }

  lemma NextKeepsInside(suites: Suites, s: State, a: Action, lock: LockKey, i: nat)
    requires OwnerInside(s, lock, i) && Next(suites, s, a).Some? && !LosesLease(s, a, i)
    ensures OwnerInside(Next(suites, s, a).value, lock, i)
  {
    if a.Step? && a.caller == i {
      OwnStepKeepsInside(suites, s, a.event, lock, i);
    } else if a.Step? {
      OtherStepKeepsInside(suites, s, a.caller, a.event, lock, i);
    }
  }

  lemma {:induction false} RunKeepsInside(suites: Suites, s: State, actions: seq<Action>, lock: LockKey, i: nat)
    requires OwnerInside(s, lock, i) && Run(suites, s, actions).Some? && KeepsLease(suites, s, actions, i)
    ensures OwnerInside(Run(suites, s, actions).value, lock, i)
    decreases |actions|
  {
    if actions != [] {
      NextKeepsInside(suites, s, actions[0], lock, i);
      RunKeepsInside(suites, Next(suites, s, actions[0]).value, actions[1..], lock, i);
    }
  }

  /** In every run a caller that returns or fails, in whatever way, has given its lock
      back, unless it crashed or the release itself failed. */
  lemma FinishedHoldsNoLock(suites: Suites, actions: seq<Action>, lock: LockKey, i: nat)
    requires Run(suites, INITIAL, actions).Some? && KeepsLease(suites, INITIAL, actions, i)
    ensures var t := Run(suites, INITIAL, actions).value;
      lock in t.locks && t.locks[lock] == i ==> i < |t.callers| && Inside(t.callers[i], lock)
  {
    RunKeepsInside(suites, INITIAL, actions, lock, i);
  }

  /** In every run a caller that has returned holds no lock. */
  lemma ReturnedHoldsNoLock(suites: Suites, actions: seq<Action>, lock: LockKey)
    requires Run(suites, INITIAL, actions).Some?
    ensures var t := Run(suites, INITIAL, actions).value;
      lock in t.locks ==> t.locks[lock] < |t.callers| && !t.callers[t.locks[lock]].pc.Done?
  {
    RunKeepsWorking(suites, INITIAL, actions);
    assert OwnerWorks(Run(suites, INITIAL, actions).value, lock);
  }

  // Another revision -----------------------------------------------------------------------

  /** A caller that has yet to look, or has failed, while its attempt exists with
      another revision. */
  ghost predicate ComesTooLate(s: State, i: nat) {
    && i < |s.callers| && (s.callers[i].pc.FindFirst? || s.callers[i].pc.Threw?)
    && exists r :: 0 <= r < |s.rows| && s.rows[r].key == s.callers[i].key && s.rows[r].revision != s.callers[i].revision
  }

  lemma NextKeepsLate(suites: Suites, s: State, a: Action, i: nat)
    requires Inv(suites, s) && Next(suites, s, a).Some? && ComesTooLate(s, i)
    ensures ComesTooLate(Next(suites, s, a).value, i)
  {
    var t := Next(suites, s, a).value;
    NextGrows(suites, s, a);
    var r :| 0 <= r < |s.rows| && s.rows[r].key == s.callers[i].key && s.rows[r].revision != s.callers[i].revision;
    assert t.rows[r].key == t.callers[i].key && t.rows[r].revision != t.callers[i].revision;
    if a.Step? && a.caller == i {
      var found := FindRow(s.rows, s.callers[i].key);
      assert found == Some(r);
    } else {
      assert t.callers[i] == s.callers[i];
    }
  }

  /** Whoever looks for an attempt that already exists with another revision is
      refused, whatever else happens. */
  lemma {:induction false} LatecomerIsRefused(suites: Suites, s: State, actions: seq<Action>, i: nat)
    requires SuitesOk(suites) && Inv(suites, s) && Run(suites, s, actions).Some? && ComesTooLate(s, i)
    ensures var t := Run(suites, s, actions).value;
      i < |t.callers| && (t.callers[i].pc.FindFirst? || t.callers[i].pc.Threw?)
    decreases |actions|
  {
    if actions != [] {
      NextKeepsLate(suites, s, actions[0], i);
      NextKeepsInv(suites, s, actions[0]);
      LatecomerIsRefused(suites, Next(suites, s, actions[0]).value, actions[1..], i);
    }
  }

  // A caller on its own --------------------------------------------------------------------

  function Alone(i: nat, n: nat): seq<Action> {
    if n == 0 then [] else [Step(i, Proceed)] + Alone(i, n - 1)
  }

  lemma AloneStep(suites: Suites, s: State, i: nat, n: nat)
    requires n > 0 && Next(suites, s, Step(i, Proceed)).Some?
    ensures Run(suites, s, Alone(i, n)) == Run(suites, Next(suites, s, Step(i, Proceed)).value, Alone(i, n - 1))
  {
    assert Alone(i, n)[1..] == Alone(i, n - 1);
  }

  predicate Looking(s: State, i: nat) {
    i < |s.callers| && s.callers[i].pc.FindFirst?
  }

  ghost predicate Unclaimed(s: State, c: Caller) {
    LockOf(c) !in s.locks && forall r :: 0 <= r < |s.rows| ==> s.rows[r].key != c.key
  }

  function CreatingPc(id: nat, n: nat): Pc {
    match n
    case 0 => FindFirst
    case 1 => Acquire
    case 2 => FindSecond
    case 3 => Create(true)
    case 4 => Created(id, true)
    case 5 => Release(Some(id))
    case _ => Done(id)
  }

  /** The states of a creation that nobody disturbs. */
  function CreatingState(suites: Suites, s: State, i: nat, n: nat): State
    requires i < |s.callers|
  {
    var c := s.callers[i];
    var rows := if n <= 3 then s.rows else s.rows + [Row(c.key, c.revision, suites.sessionCount(c.revision))];
    var locks := if 2 <= n <= 5 then s.locks[LockOf(c) := i] else s.locks;
    At(s.(rows := rows, locks := locks), i, CreatingPc(|s.rows|, n))
  }

  lemma CreatingStep(suites: Suites, s: State, i: nat, n: nat)
    requires n < 6 && Looking(s, i) && Unclaimed(s, s.callers[i])
    ensures Next(suites, CreatingState(suites, s, i, n), Step(i, Proceed)) == Some(CreatingState(suites, s, i, n + 1))
  {
    var c, t := s.callers[i], CreatingState(suites, s, i, n);
    assert n <= 3 ==> FindRow(t.rows, c.key).None?;
    assert s.locks[LockOf(c) := i] - {LockOf(c)} == s.locks;
    assert forall pc :: At(t, i, pc).callers == s.callers[i := c.(pc := pc)];
  }

  /** A caller that finds no attempt and a free lock creates one with all its sessions,
      returns it and leaves the lock free. */
  lemma CreatesAlone(suites: Suites, s: State, i: nat)
    requires Looking(s, i) && Unclaimed(s, s.callers[i])
    ensures Run(suites, s, Alone(i, 6)).Some?
    ensures var (c, t) := (s.callers[i], Run(suites, s, Alone(i, 6)).value);
      && t.rows == s.rows + [Row(c.key, c.revision, suites.sessionCount(c.revision))] && t.locks == s.locks
      && t.callers == s.callers[i := Caller(c.key, c.revision, Done(|s.rows|))]
  {
    assert CreatingState(suites, s, i, 0) == s;
    for n := 0 to 6
      invariant Run(suites, s, Alone(i, 6)) == Run(suites, CreatingState(suites, s, i, n), Alone(i, 6 - n))
    {
      CreatingStep(suites, s, i, n);
      AloneStep(suites, CreatingState(suites, s, i, n), i, 6 - n);
    }
  }

  /** The attempt of caller `i` exists in its own revision, as row `r`. */
  predicate OwnRow(s: State, i: nat, r: nat) {
    && i < |s.callers| && r < |s.rows| && s.rows[r].key == s.callers[i].key && s.rows[r].revision == s.callers[i].revision
  }

  lemma AtTwice(s: State, i: nat, first: Pc, second: Pc)
    requires i < |s.callers|
    ensures At(At(s, i, first), i, second) == At(s, i, second)
  {
    assert At(At(s, i, first), i, second).callers == At(s, i, second).callers;
  }

  lemma RowIsFound(s: State, i: nat, r: nat)
    requires OneRowPerKey(s) && OwnRow(s, i, r)
    ensures FindRow(s.rows, s.callers[i].key) == Some(r)
  {
  }

  /** A caller that finds its complete attempt returns it, and nothing is written. */
  lemma FindsAlone(suites: Suites, s: State, i: nat, r: nat)
    requires OneRowPerKey(s) && Looking(s, i) && OwnRow(s, i, r)
    requires s.rows[r].sessions == suites.sessionCount(s.callers[i].revision)
    ensures Run(suites, s, Alone(i, 2)) == Some(At(s, i, Done(r)))
  {
    RowIsFound(s, i, r);
    var t := At(s, i, Recover(POLLS, false));
    AloneStep(suites, s, i, 2);
    AloneStep(suites, t, i, 1);
    AtTwice(s, i, Recover(POLLS, false), Done(r));
    assert Run(suites, At(s, i, Done(r)), Alone(i, 0)) == Some(At(s, i, Done(r)));
  }

  /** Polling for sessions that never come. */
  lemma {:induction false} PollsAlone(suites: Suites, s: State, i: nat, r: nat, polls: nat)
    requires OneRowPerKey(s) && OwnRow(s, i, r)
    requires s.rows[r].sessions != suites.sessionCount(s.callers[i].revision)
    ensures Run(suites, At(s, i, Recover(polls, false)), Alone(i, polls)) == Some(At(s, i, Recover(0, false)))
    ensures Run(suites, At(s, i, Recover(polls, false)), Alone(i, polls + 1)) == Some(At(s, i, Threw))
    decreases polls
  {
    var t := At(s, i, Recover(polls, false));
    RowIsFound(s, i, r);
    AtTwice(s, i, Recover(polls, false), if polls == 0 then Threw else Recover(polls - 1, false));
    AloneStep(suites, t, i, polls + 1);
    if polls > 0 {
      AloneStep(suites, t, i, polls);
      PollsAlone(suites, s, i, r, polls - 1);
    } else {
      assert Run(suites, At(s, i, Threw), Alone(i, 0)) == Some(At(s, i, Threw));
    }
  }

  /** A caller whose attempt stays without its sessions polls a hundred times and then
      fails. */
  lemma WaitsHundredPolls(suites: Suites, s: State, i: nat, r: nat)
    requires OneRowPerKey(s) && Looking(s, i) && OwnRow(s, i, r)
    requires s.rows[r].sessions != suites.sessionCount(s.callers[i].revision)
    ensures Run(suites, s, Alone(i, 101)) == Some(At(s, i, Recover(0, false)))
    ensures Run(suites, s, Alone(i, 102)) == Some(At(s, i, Threw))
  {
    RowIsFound(s, i, r);
    AloneStep(suites, s, i, 101);
    AloneStep(suites, s, i, 102);
    PollsAlone(suites, s, i, r, 100);
  }

  // Termination of a caller --------------------------------------------------------------

  /** Steps a caller can still take on its own. */
  function Remaining(pc: Pc): nat {
    match pc
    case Done(_) => 0
    case Threw => 0
    case Release(_) => 1
    case Created(_, _) => 2
    case InsertSessions(_, _) => 3
    case Recover(polls, _) => polls + 2
    case Create(_) => POLLS + 3
    case FindSecond => POLLS + 4
    case Acquire => POLLS + 5
    case FindFirst => POLLS + 6
  }

  /** Every caller ends: nobody waits for a lock, and recovery polls a bounded
      number of times. */
  lemma CallerTerminates(suites: Suites, s: State, i: nat, e: Event)
    requires Inv(suites, s) && i < |s.callers| && !Finished(s.callers[i].pc)
    ensures Take(suites, s, i, Proceed).Some?
    ensures Take(suites, s, i, e).Some? ==>
      Remaining(Take(suites, s, i, e).value.callers[i].pc) < Remaining(s.callers[i].pc) <= POLLS + 6
  {
    assert CallerOk(suites, s, s.callers[i]);
  }
}
