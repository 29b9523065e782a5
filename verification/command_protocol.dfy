/** The stream command processor as a transition system: one step per effect on
    Redis or on the handler, with an interruption possible between any two.
    An interruption stands for a crash of the worker and equally for an error
    thrown out of the message loop: both leave the message pending. */
module CommandProtocol {
  import opened Collections

  /** `maxCommandAttempts`, at least one by construction. */
  type Attempts = n: nat | n > 0 witness 1

  datatype Message = Message(partition: nat, commandId: string, kind: string, payloadParses: bool)

  /** A stored response: what the handler returned, or the dead-letter notice. */
  datatype Reply = Handled(value: int) | DeadLettered(attempts: nat)

  /** The Redis keys. `replies` lists everything ever pushed to a response list. */
  datatype Store = Store(
    results: map<string, Reply>,
    retries: map<string, nat>,
    failures: map<string, nat>,
    replies: seq<(string, Reply)>,
    acked: set<nat>)

  /** What has happened so far, for stating bounds. */
  datatype History = History(
    calls: map<string, nat>,
    writes: map<string, nat>,
    interruptions: map<string, nat>,
    deadLetters: seq<(string, nat)>,
    returned: set<(string, int)>)

  /** The next effect of a worker that is processing message `m`. */
  datatype Pc =
    | Idle
    | Lookup(m: nat)
    | Republish(m: nat, stored: Reply)
    | ReadRetries(m: nat)
    | DeadLetterAgain(m: nat, attempts: nat)
    | Attempt(m: nat)
    | Handling(m: nat)
    | ClearAfterSuccess(m: nat, reply: Reply)
    | CountFailure(m: nat, pending: Option<Reply>)
    | RecordFailure(m: nat, attempts: nat)
    | DeadLetter(m: nat, attempts: nat)
    | ClearRetries(m: nat, reply: Reply)
    | StoreResult(m: nat, reply: Reply)
    | Publish(m: nat, reply: Reply)
    | Acknowledge(m: nat)

  datatype State = State(messages: seq<Message>, workers: seq<Pc>, store: Store, history: History)

  /** How an effect can turn out. `Fail` is an error inside the retry loop. */
  datatype Event = Proceed | Return(value: int) | Fail

  datatype Action =
    | Enqueue(message: Message)
    | Deliver(worker: nat, m: nat)
    | Advance(worker: nat, event: Event)
    | Interrupt(worker: nat)

  function At(counts: map<string, nat>, key: string): nat {
    if key in counts then counts[key] else 0
  }

  predicate WellFormed(message: Message) {
    message.commandId != "" && message.kind != ""
  }

  function MoveTo(s: State, w: nat, pc: Pc): State
    requires w < |s.workers|
  {
    s.(workers := s.workers[w := pc])
  }

  /** The effect a worker performs next, with the given outcome. */
  function AdvanceWorker(max: Attempts, s: State, w: nat, e: Event): Option<State>
    requires w < |s.workers|
  {
    var pc, store, history := s.workers[w], s.store, s.history;
    if pc.Idle? || pc.m >= |s.messages| then None
    else
      var c := s.messages[pc.m].commandId;
      match (pc, e)
      case (Lookup(m), Proceed) =>
        Some(MoveTo(s, w, if c in store.results then Republish(m, store.results[c]) else ReadRetries(m)))
      case (Republish(m, stored), Proceed) =>
        Some(MoveTo(s.(store := store.(replies := store.replies + [(c, stored)])), w, Acknowledge(m)))
      case (ReadRetries(m), Proceed) =>
        var attempts := At(store.retries, c);
        Some(MoveTo(s, w, if attempts >= max then DeadLetterAgain(m, attempts) else Attempt(m)))
      case (DeadLetterAgain(m, attempts), Proceed) =>
        Some(MoveTo(s.(history := history.(deadLetters := history.deadLetters + [(c, attempts)])), w,
          ClearRetries(m, DeadLettered(attempts))))
      case (Attempt(m), Proceed) =>
        if s.messages[m].payloadParses then
          Some(MoveTo(s.(history := history.(calls := history.calls[c := At(history.calls, c) + 1])), w, Handling(m)))
        else Some(MoveTo(s, w, CountFailure(m, None)))
      case (Handling(m), Return(v)) =>
        Some(MoveTo(s.(history := history.(returned := history.returned + {(c, v)})), w, ClearAfterSuccess(m, Handled(v))))
      case (Handling(m), Fail) => Some(MoveTo(s, w, CountFailure(m, None)))
      case (ClearAfterSuccess(m, r), Proceed) =>
        Some(MoveTo(s.(store := store.(retries := store.retries - {c}, failures := store.failures - {c})), w,
          ClearRetries(m, r)))
      case (ClearAfterSuccess(m, r), Fail) => Some(MoveTo(s, w, CountFailure(m, Some(r))))
      case (CountFailure(m, pending), Proceed) =>
        var attempts := At(store.retries, c) + 1;
        Some(MoveTo(s.(store := store.(retries := store.retries[c := attempts])), w,
          if attempts >= max then RecordFailure(m, attempts)
          else if pending.Some? then ClearRetries(m, pending.value)
          else Attempt(m)))
      case (RecordFailure(m, attempts), Proceed) =>
        Some(MoveTo(s.(store := store.(failures := store.failures[c := attempts])), w, DeadLetter(m, attempts)))
      case (DeadLetter(m, attempts), Proceed) =>
        Some(MoveTo(s.(history := history.(deadLetters := history.deadLetters + [(c, attempts)])), w,
          ClearRetries(m, DeadLettered(attempts))))
      case (ClearRetries(m, r), Proceed) =>
        Some(MoveTo(s.(store := store.(retries := store.retries - {c}, failures := store.failures - {c})), w,
          StoreResult(m, r)))
      case (StoreResult(m, r), Proceed) =>
        Some(MoveTo(s.(store := store.(results := store.results[c := r]),
          history := history.(writes := history.writes[c := At(history.writes, c) + 1])), w, Publish(m, r)))
      case (Publish(m, r), Proceed) =>
        Some(MoveTo(s.(store := store.(replies := store.replies + [(c, r)])), w, Acknowledge(m)))
      case (Acknowledge(m), Proceed) =>
        Some(MoveTo(s.(store := store.(acked := store.acked + {m})), w, Idle))
      case _ => None
  }

  function Step(max: Attempts, s: State, a: Action): Option<State> {
    match a
    case Enqueue(message) =>
      if message.partition < |s.workers| then Some(s.(messages := s.messages + [message])) else None
    case Deliver(w, m) =>
      if w < |s.workers| && s.workers[w].Idle? && m < |s.messages| && s.messages[m].partition == w
         && m !in s.store.acked
      then Some(MoveTo(s, w, if WellFormed(s.messages[m]) then Lookup(m) else Acknowledge(m)))
      else None
    case Advance(w, e) => if w < |s.workers| then AdvanceWorker(max, s, w, e) else None
    case Interrupt(w) =>
      if w < |s.workers| && !s.workers[w].Idle? && s.workers[w].m < |s.messages| then
        var c := s.messages[s.workers[w].m].commandId;
        Some(MoveTo(s.(history := s.history.(interruptions :=
          s.history.interruptions[c := At(s.history.interruptions, c) + 1])), w, Idle))
      else None
  }

  function Run(max: Attempts, s: State, actions: seq<Action>): Option<State>
    decreases |actions|
  {
    if actions == [] then Some(s)
    else
      var next := Step(max, s, actions[0]);
      if next.None? then None else Run(max, next.value, actions[1..])
  }

  function Initial(partitions: nat): State {
    State([], seq(partitions, _ => Idle), Store(map[], map[], map[], [], {}), History(map[], map[], map[], [], {}))
  }

  // The invariant ------------------------------------------------------------

  /** Every command is published to one partition. A partition has one consumer
      at a time by its lease, so this makes one worker responsible for it. */
  ghost predicate SingleHomed(home: string -> nat, messages: seq<Message>) {
    forall i :: 0 <= i < |messages| && WellFormed(messages[i]) ==> messages[i].partition == home(messages[i].commandId)
  }

  predicate Processing(s: State, w: nat, c: string) {
    && w < |s.workers| && !s.workers[w].Idle? && s.workers[w].m < |s.messages|
    && WellFormed(s.messages[s.workers[w].m]) && s.messages[s.workers[w].m].commandId == c
  }

  ghost predicate DeadLetterLogged(max: Attempts, s: State, c: string, r: Reply) {
    r.DeadLettered? ==> r.attempts == max && (c, max as nat) in s.history.deadLetters
  }

  /** Before its result is stored: what the phase of the worker implies. */
  ghost predicate PhaseOk(max: Attempts, s: State, pc: Pc, c: string) {
    var (retries, calls) := (At(s.store.retries, c), At(s.history.calls, c));
    var base := max * At(s.history.interruptions, c);
    match pc
    case Lookup(_) => calls <= base + retries
    case ReadRetries(_) => calls <= base + retries
    case DeadLetterAgain(_, a) => a == max && retries == max && calls <= base + retries
    case Attempt(_) => retries < max && calls <= base + retries
    case Handling(_) => retries < max && calls <= base + retries + 1
    case ClearAfterSuccess(_, r) => retries < max && calls <= base + retries + 1 && r.Handled?
    case CountFailure(_, pending) =>
      retries < max && calls <= base + retries + 1 && (pending.Some? ==> pending.value.Handled?)
    case RecordFailure(_, a) => a == max && retries == max && calls <= base + retries
    case DeadLetter(_, a) => a == max && retries == max && calls <= base + retries
    case ClearRetries(_, r) => calls <= base + max && DeadLetterLogged(max, s, c, r)
    case StoreResult(_, r) => calls <= base + max && retries == 0 && DeadLetterLogged(max, s, c, r)
    case _ => false
  }

  /** Once its result is stored: only replies and the acknowledgement remain. */
  ghost predicate StoredPhaseOk(pc: Pc, result: Reply) {
    match pc
    case Lookup(_) => true
    case Republish(_, stored) => stored == result
    case Publish(_, r) => r == result
    case Acknowledge(_) => true
    case _ => false
  }

  ghost predicate CommandOk(max: Attempts, home: string -> nat, s: State, c: string) {
    var w := home(c);
    var (retries, calls) := (At(s.store.retries, c), At(s.history.calls, c));
    var interruptions := At(s.history.interruptions, c);
    && retries <= max
    && At(s.history.writes, c) == (if c in s.store.results then 1 else 0)
    && (c in s.store.results ==>
         && DeadLetterLogged(max, s, c, s.store.results[c])
         && calls <= max * interruptions + max
         && (Processing(s, w, c) ==> StoredPhaseOk(s.workers[w], s.store.results[c])))
    && (c !in s.store.results ==>
         && (Processing(s, w, c) ==> PhaseOk(max, s, s.workers[w], c))
         && (!Processing(s, w, c) ==> calls <= max * interruptions + retries))
  }

  ghost predicate WorkerOk(s: State, w: nat)
    requires w < |s.workers|
  {
    var pc := s.workers[w];
    !pc.Idle? ==>
      && pc.m < |s.messages| && s.messages[pc.m].partition == w && pc.m !in s.store.acked
      && (!pc.Acknowledge? ==> WellFormed(s.messages[pc.m]))
  }

  ghost predicate Inv(max: Attempts, home: string -> nat, s: State) {
    && (forall w :: 0 <= w < |s.workers| ==> WorkerOk(s, w))
    && (forall i :: 0 <= i < |s.messages| ==> s.messages[i].partition < |s.workers|)
    && (forall c :: c != "" ==> CommandOk(max, home, s, c))
    && (forall m :: m in s.store.acked ==>
         m < |s.messages| && (WellFormed(s.messages[m]) ==> s.messages[m].commandId in s.store.results))
    && (forall i :: 0 <= i < |s.store.replies| ==>
         s.store.replies[i].0 in s.store.results && s.store.results[s.store.replies[i].0] == s.store.replies[i].1)
  }

  lemma InitialInv(max: Attempts, home: string -> nat, partitions: nat)
    ensures Inv(max, home, Initial(partitions))
  {
  }

  // One step -----------------------------------------------------------------

  /** Another command's keys and its own worker are untouched. */
  ghost predicate Untouched(home: string -> nat, s: State, t: State, c: string) {
    && At(t.store.retries, c) == At(s.store.retries, c)
    && At(t.history.calls, c) == At(s.history.calls, c)
    && At(t.history.writes, c) == At(s.history.writes, c)
    && At(t.history.interruptions, c) == At(s.history.interruptions, c)
    && (c in t.store.results <==> c in s.store.results)
    && (c in s.store.results ==> t.store.results[c] == s.store.results[c])
    && (forall d :: d in s.history.deadLetters ==> d in t.history.deadLetters)
    && (Processing(t, home(c), c) <==> Processing(s, home(c), c))
    && (Processing(s, home(c), c) ==> t.workers[home(c)] == s.workers[home(c)])
  }

  lemma UntouchedKeepsCommand(max: Attempts, home: string -> nat, s: State, t: State, c: string)
    requires CommandOk(max, home, s, c) && Untouched(home, s, t, c)
    ensures CommandOk(max, home, t, c)
  {
  }

  lemma AdvanceLeavesOthers(max: Attempts, home: string -> nat, s: State, w: nat, e: Event, c: string)
    requires w < |s.workers| && WorkerOk(s, w) && AdvanceWorker(max, s, w, e).Some?
    requires s.messages[s.workers[w].m].commandId != c
    ensures Untouched(home, s, AdvanceWorker(max, s, w, e).value, c)
  {
    var t := AdvanceWorker(max, s, w, e).value;
    assert t.messages == s.messages && |t.workers| == |s.workers|;
    assert forall v :: 0 <= v < |s.workers| && v != w ==> t.workers[v] == s.workers[v];
    assert t.workers[w].Idle? || t.workers[w].m == s.workers[w].m;
  }

  /** The worker still has to decide the outcome of the command. */
  predicate Deciding(pc: Pc) {
    pc.ReadRetries? || pc.Attempt? || pc.Handling? || pc.ClearAfterSuccess? || pc.CountFailure? || pc.RecordFailure?
  }

  ghost predicate Owns(home: string -> nat, s: State, w: nat, c: string) {
    && w < |s.workers| && !s.workers[w].Idle? && WorkerOk(s, w)
    && c == s.messages[s.workers[w].m].commandId
    && WellFormed(s.messages[s.workers[w].m]) && home(c) == w
  }

  lemma DecidingKeepsOwn(max: Attempts, home: string -> nat, s: State, w: nat, e: Event, c: string)
    requires Owns(home, s, w, c) && Deciding(s.workers[w])
    requires AdvanceWorker(max, s, w, e).Some? && CommandOk(max, home, s, c)
    ensures CommandOk(max, home, AdvanceWorker(max, s, w, e).value, c)
  {
    var t := AdvanceWorker(max, s, w, e).value;
    assert Processing(s, w, c) && Processing(t, w, c);
    assert t.store.results == s.store.results && t.history.interruptions == s.history.interruptions;
  }

  /** The outcome is decided but not yet stored. */
  predicate Settling(pc: Pc) {
    pc.DeadLetterAgain? || pc.DeadLetter? || pc.ClearRetries? || pc.StoreResult?
  }

  lemma SettlingKeepsOwn(max: Attempts, home: string -> nat, s: State, w: nat, e: Event, c: string)
    requires Owns(home, s, w, c) && Settling(s.workers[w])
    requires AdvanceWorker(max, s, w, e).Some? && CommandOk(max, home, s, c)
    ensures CommandOk(max, home, AdvanceWorker(max, s, w, e).value, c)
  {
    var t := AdvanceWorker(max, s, w, e).value;
    assert Processing(s, w, c) && Processing(t, w, c) && c !in s.store.results;
    assert t.history.interruptions == s.history.interruptions;
    assert s.workers[w].ClearRetries? ==> At(t.store.retries, c) == 0;
    assert s.workers[w].DeadLetter? || s.workers[w].DeadLetterAgain? ==>
      (c, s.workers[w].attempts) == t.history.deadLetters[|s.history.deadLetters|];
  }

  lemma AnsweringKeepsOwn(max: Attempts, home: string -> nat, s: State, w: nat, e: Event, c: string)
    requires Owns(home, s, w, c) && !Deciding(s.workers[w]) && !Settling(s.workers[w])
    requires AdvanceWorker(max, s, w, e).Some? && CommandOk(max, home, s, c)
    ensures CommandOk(max, home, AdvanceWorker(max, s, w, e).value, c)
  {
    var t := AdvanceWorker(max, s, w, e).value;
    assert Processing(s, w, c);
    assert t.store.results == s.store.results && t.history == s.history;
  }

  lemma AdvanceKeepsCommands(max: Attempts, home: string -> nat, s: State, w: nat, e: Event)
    requires Inv(max, home, s) && SingleHomed(home, s.messages)
    requires w < |s.workers| && AdvanceWorker(max, s, w, e).Some?
    ensures forall c :: c != "" ==> CommandOk(max, home, AdvanceWorker(max, s, w, e).value, c)
  {
    assert WorkerOk(s, w);
    var t := AdvanceWorker(max, s, w, e).value;
    var message := s.messages[s.workers[w].m];
    forall c | c != ""
      ensures CommandOk(max, home, t, c)
    {
      if message.commandId != c {
        AdvanceLeavesOthers(max, home, s, w, e, c);
        UntouchedKeepsCommand(max, home, s, t, c);
      } else if !WellFormed(message) {
        assert s.workers[w].Acknowledge? && Untouched(home, s, t, c);
        UntouchedKeepsCommand(max, home, s, t, c);
      } else if Deciding(s.workers[w]) {
        DecidingKeepsOwn(max, home, s, w, e, c);
      } else if Settling(s.workers[w]) {
        SettlingKeepsOwn(max, home, s, w, e, c);
      } else {
        AnsweringKeepsOwn(max, home, s, w, e, c);
      }
    }
  }

  /** Results are only ever added, and an advance acknowledges or replies only
      what its phase vouches for. */
  lemma AdvanceKeepsOutputs(max: Attempts, home: string -> nat, s: State, w: nat, e: Event)
    requires Inv(max, home, s) && SingleHomed(home, s.messages)
    requires w < |s.workers| && AdvanceWorker(max, s, w, e).Some?
    ensures var t := AdvanceWorker(max, s, w, e).value;
      && (forall c :: c in s.store.results ==> c in t.store.results && t.store.results[c] == s.store.results[c])
      && (forall m :: m in t.store.acked ==>
           m < |t.messages| && (WellFormed(t.messages[m]) ==> t.messages[m].commandId in t.store.results))
      && (forall i :: 0 <= i < |t.store.replies| ==>
           t.store.replies[i].0 in t.store.results && t.store.results[t.store.replies[i].0] == t.store.replies[i].1)
  {
    var t := AdvanceWorker(max, s, w, e).value;
    assert WorkerOk(s, w);
    var message := s.messages[s.workers[w].m];
    if WellFormed(message) {
      assert CommandOk(max, home, s, message.commandId) && Processing(s, w, message.commandId);
      assert home(message.commandId) == w;
    }
  }

  lemma AdvanceKeepsInv(max: Attempts, home: string -> nat, s: State, w: nat, e: Event)
    requires Inv(max, home, s) && SingleHomed(home, s.messages)
    requires w < |s.workers| && AdvanceWorker(max, s, w, e).Some?
    ensures Inv(max, home, AdvanceWorker(max, s, w, e).value)
  {
    AdvanceKeepsCommands(max, home, s, w, e);
    AdvanceKeepsOutputs(max, home, s, w, e);
    AdvanceKeepsWorkers(max, s, w, e);
  }

  lemma AdvanceKeepsWorkers(max: Attempts, s: State, w: nat, e: Event)
    requires w < |s.workers| && AdvanceWorker(max, s, w, e).Some?
    requires forall v :: 0 <= v < |s.workers| ==> WorkerOk(s, v)
    ensures var t := AdvanceWorker(max, s, w, e).value;
      && t.messages == s.messages && |t.workers| == |s.workers|
      && (forall v :: 0 <= v < |t.workers| ==> WorkerOk(t, v))
  {
    var t := AdvanceWorker(max, s, w, e).value;
    assert forall v :: 0 <= v < |s.workers| && v != w ==> t.workers[v] == s.workers[v];
    assert t.store.acked == s.store.acked || t.store.acked == s.store.acked + {s.workers[w].m};
    forall v | 0 <= v < |t.workers|
      ensures WorkerOk(t, v)
    {
      assert WorkerOk(s, v) && WorkerOk(s, w);
    }
  }

  lemma KeptWorkers(s: State, t: State, w: nat)
    requires w < |s.workers| && (forall v :: 0 <= v < |s.workers| ==> WorkerOk(s, v))
    requires |t.workers| == |s.workers| && t.messages == s.messages && t.store.acked == s.store.acked
    requires WorkerOk(t, w) && forall v :: 0 <= v < |s.workers| && v != w ==> t.workers[v] == s.workers[v]
    ensures forall v :: 0 <= v < |t.workers| ==> WorkerOk(t, v)
  {
    forall v | 0 <= v < |t.workers|
      ensures WorkerOk(t, v)
    {
      assert WorkerOk(s, v);
    }
  }

  lemma DeliverKeepsInv(max: Attempts, home: string -> nat, s: State, w: nat, m: nat)
    requires Inv(max, home, s) && SingleHomed(home, s.messages) && Step(max, s, Deliver(w, m)).Some?
    ensures Inv(max, home, Step(max, s, Deliver(w, m)).value)
  {
    var t := Step(max, s, Deliver(w, m)).value;
    KeptWorkers(s, t, w);
    forall c | c != ""
      ensures CommandOk(max, home, t, c)
    {
      assert CommandOk(max, home, s, c);
      if c != s.messages[m].commandId || !WellFormed(s.messages[m]) {
        UntouchedKeepsCommand(max, home, s, t, c);
      }
    }
  }

  lemma EnqueueKeepsInv(max: Attempts, home: string -> nat, s: State, message: Message)
    requires Inv(max, home, s) && Step(max, s, Enqueue(message)).Some?
    ensures Inv(max, home, Step(max, s, Enqueue(message)).value)
  {
    var t := Step(max, s, Enqueue(message)).value;
    assert forall i :: 0 <= i < |s.messages| ==> t.messages[i] == s.messages[i];
    forall v | 0 <= v < |t.workers|
      ensures WorkerOk(t, v)
    {
      assert WorkerOk(s, v);
    }
    forall c | c != ""
      ensures CommandOk(max, home, t, c)
    {
      assert home(c) < |s.workers| ==> WorkerOk(s, home(c));
      UntouchedKeepsCommand(max, home, s, t, c);
    }
  }

  lemma OneMore(max: nat, k: nat)
    ensures max * (k + 1) == max * k + max
  {
  }

  /** An interruption buys one more round of attempts. */
  lemma InterruptKeepsInv(max: Attempts, home: string -> nat, s: State, w: nat)
    requires Inv(max, home, s) && SingleHomed(home, s.messages) && Step(max, s, Interrupt(w)).Some?
    ensures Inv(max, home, Step(max, s, Interrupt(w)).value)
  {
    var t := Step(max, s, Interrupt(w)).value;
    assert WorkerOk(s, w);
    KeptWorkers(s, t, w);
    var message := s.messages[s.workers[w].m];
    forall c | c != ""
      ensures CommandOk(max, home, t, c)
    {
      assert CommandOk(max, home, s, c);
      if c != message.commandId {
        UntouchedKeepsCommand(max, home, s, t, c);
      } else {
        OneMore(max, At(s.history.interruptions, c));
        if WellFormed(message) {
          assert Processing(s, home(c), c) && !Processing(t, home(c), c);
        } else {
          MoreInterruptionsKeepCommand(max, home, s, t, c);
        }
      }
    }
  }

  lemma MoreInterruptionsKeepCommand(max: Attempts, home: string -> nat, s: State, t: State, c: string)
    requires CommandOk(max, home, s, c)
    requires t.store == s.store && t.messages == s.messages
    requires t.history == s.history.(interruptions := t.history.interruptions)
    requires At(t.history.interruptions, c) == At(s.history.interruptions, c) + 1
    requires Processing(t, home(c), c) <==> Processing(s, home(c), c)
    requires Processing(s, home(c), c) ==> t.workers[home(c)] == s.workers[home(c)]
    ensures CommandOk(max, home, t, c)
  {
    OneMore(max, At(s.history.interruptions, c));
  }

  lemma StepKeepsInv(max: Attempts, home: string -> nat, s: State, a: Action)
    requires Inv(max, home, s) && SingleHomed(home, s.messages) && Step(max, s, a).Some?
    ensures Inv(max, home, Step(max, s, a).value)
  {
    match a
    case Enqueue(message) => EnqueueKeepsInv(max, home, s, message);
    case Deliver(w, m) => DeliverKeepsInv(max, home, s, w, m);
    case Advance(w, e) => AdvanceKeepsInv(max, home, s, w, e);
    case Interrupt(w) => InterruptKeepsInv(max, home, s, w);
  }
}
