/** When a value that the handler returned is what gets stored. */
module CommandSuccess {
  import opened Collections
  import opened CommandProtocol
  import opened CommandGuarantees

  ghost predicate HasReturned(h: History, c: string) {
    exists v: int :: (c, v) in h.returned
  }

  /** The two ways to lose a success: clearing the retry keys right after it fails
      at the last attempt, or the worker is interrupted before the result is stored. */
  ghost predicate Spoils(max: Attempts, s: State, a: Action, c: string) {
    match a
    case Advance(w, Fail) => Processing(s, w, c) && s.workers[w].ClearAfterSuccess? && At(s.store.retries, c) + 1 >= max
    case Interrupt(w) => Processing(s, w, c) && c !in s.store.results && HasReturned(s.history, c)
    case _ => false
  }

  /** No action of the run spoils `c`. */
  ghost predicate Unspoiled(max: Attempts, s: State, actions: seq<Action>, c: string)
    decreases |actions|
  {
    actions != [] ==>
      && !Spoils(max, s, actions[0], c)
      && (Step(max, s, actions[0]).Some? ==> Unspoiled(max, Step(max, s, actions[0]).value, actions[1..], c))
  }

  predicate CarriesSuccess(max: Attempts, s: State, pc: Pc, c: string) {
    && Carried(pc).Some? && Carried(pc).value.Handled?
    && (pc.CountFailure? ==> At(s.store.retries, c) + 1 < max)
  }

  /** A returned value is stored, or its worker carries a success to the store. */
  ghost predicate SuccessKept(max: Attempts, home: string -> nat, s: State, c: string) {
    HasReturned(s.history, c) ==>
      if c in s.store.results then s.store.results[c].Handled?
      else Processing(s, home(c), c) && CarriesSuccess(max, s, s.workers[home(c)], c)
  }

  // One step --------------------------------------------------------------------------

  /** Only the return of the handler adds a value, and only to its own command. */
  lemma ReturnedByOwn(max: Attempts, s: State, w: nat, e: Event, c: string)
    requires w < |s.workers| && AdvanceWorker(max, s, w, e).Some?
    requires HasReturned(AdvanceWorker(max, s, w, e).value.history, c) && !HasReturned(s.history, c)
    ensures s.workers[w].Handling? && e.Return? && s.messages[s.workers[w].m].commandId == c
  {
  }

  /** The own worker, with nothing stored yet. */
  lemma OwnKeepsSuccess(max: Attempts, home: string -> nat, s: State, w: nat, e: Event, c: string)
    requires Owns(home, s, w, c) && AdvanceWorker(max, s, w, e).Some?
    requires CommandOk(max, home, s, c) && c !in s.store.results
    requires SuccessKept(max, home, s, c) && !Spoils(max, s, Advance(w, e), c)
    ensures SuccessKept(max, home, AdvanceWorker(max, s, w, e).value, c)
  {
    var t := AdvanceWorker(max, s, w, e).value;
    assert Processing(s, w, c) && PhaseOk(max, s, s.workers[w], c);
    if HasReturned(t.history, c) && !HasReturned(s.history, c) {
      ReturnedByOwn(max, s, w, e, c);
    }
  }

  /** The handler is not running for a command whose result is stored. */
  lemma SettledHasNoHandling(max: Attempts, home: string -> nat, s: State, w: nat, c: string)
    requires Inv(max, home, s) && SingleHomed(home, s.messages) && c != "" && c in s.store.results
    requires w < |s.workers| && s.workers[w].Handling? && s.workers[w].m < |s.messages|
    ensures s.messages[s.workers[w].m].commandId != c
  {
    assert WorkerOk(s, w) && CommandOk(max, home, s, c);
    if s.messages[s.workers[w].m].commandId == c {
      assert Processing(s, home(c), c);
    }
  }

  lemma AdvanceKeepsSuccess(max: Attempts, home: string -> nat, s: State, w: nat, e: Event, c: string)
    requires Inv(max, home, s) && SingleHomed(home, s.messages) && c != ""
    requires w < |s.workers| && AdvanceWorker(max, s, w, e).Some?
    requires SuccessKept(max, home, s, c) && !Spoils(max, s, Advance(w, e), c)
    ensures SuccessKept(max, home, AdvanceWorker(max, s, w, e).value, c)
  {
    var t := AdvanceWorker(max, s, w, e).value;
    assert WorkerOk(s, w) && CommandOk(max, home, s, c);
    if HasReturned(t.history, c) {
      if !HasReturned(s.history, c) {
        ReturnedByOwn(max, s, w, e, c);
      }
      if c in s.store.results {
        StepKeepsSettled(max, home, s, Advance(w, e), c);
        if s.workers[w].Handling? {
          SettledHasNoHandling(max, home, s, w, c);
        }
      } else if s.messages[s.workers[w].m].commandId != c {
        AdvanceLeavesOthers(max, home, s, w, e, c);
      } else if WellFormed(s.messages[s.workers[w].m]) {
        OwnKeepsSuccess(max, home, s, w, e, c);
      } else {
        assert s.workers[w].Acknowledge?;
      }
    }
  }

  lemma StepKeepsSuccess(max: Attempts, home: string -> nat, s: State, a: Action, c: string)
    requires Inv(max, home, s) && SingleHomed(home, s.messages) && c != "" && Step(max, s, a).Some?
    requires SuccessKept(max, home, s, c) && !Spoils(max, s, a, c)
    ensures SuccessKept(max, home, Step(max, s, a).value, c)
  {
    match a
    case Advance(w, e) => AdvanceKeepsSuccess(max, home, s, w, e, c);
    case Interrupt(w) => assert WorkerOk(s, w);
    case _ =>
  }

  lemma {:induction false} RunKeepsSuccess(max: Attempts, home: string -> nat, s: State, actions: seq<Action>, c: string)
    requires Inv(max, home, s) && c != "" && Run(max, s, actions).Some?
    requires SingleHomed(home, Run(max, s, actions).value.messages)
    requires SuccessKept(max, home, s, c) && Unspoiled(max, s, actions, c)
    ensures SuccessKept(max, home, Run(max, s, actions).value, c)
    decreases |actions|
  {
    if actions != [] {
      RunGrows(max, s, actions);
      PrefixSingleHomed(home, s.messages, Run(max, s, actions).value.messages);
      StepKeepsInv(max, home, s, actions[0]);
      StepKeepsSuccess(max, home, s, actions[0], c);
      RunKeepsSuccess(max, home, Step(max, s, actions[0]).value, actions[1..], c);
    }
  }

  /** In every run that spoils nothing, a command whose handler has returned is never
      dead-lettered: its stored result is a returned value. */
  lemma ReturnedValueIsStored(max: Attempts, partitions: nat, actions: seq<Action>, c: string)
    requires c != "" && Run(max, Initial(partitions), actions).Some?
    requires OnePartitionEach(Run(max, Initial(partitions), actions).value.messages)
    requires Unspoiled(max, Initial(partitions), actions, c)
    ensures var t := Run(max, Initial(partitions), actions).value;
      HasReturned(t.history, c) && c in t.store.results ==>
        t.store.results[c].Handled? && (c, t.store.results[c].value) in t.history.returned
  {
    var t := Run(max, Initial(partitions), actions).value;
    var home := c => HomeOf(t.messages, c);
    OnePartitionGivesHome(t.messages);
    InitialInv(max, home, partitions);
    RunKeepsSuccess(max, home, Initial(partitions), actions, c);
    RepliesAreBacked(max, partitions, actions);
  }

  // Both ways are needed -----------------------------------------------------------------

  lemma StepKeepsReturned(max: Attempts, s: State, a: Action)
    requires Step(max, s, a).Some?
    ensures s.history.returned <= Step(max, s, a).value.history.returned
  {
  }

  lemma {:induction false} RunKeepsReturned(max: Attempts, s: State, actions: seq<Action>)
    requires Run(max, s, actions).Some?
    ensures s.history.returned <= Run(max, s, actions).value.history.returned
    decreases |actions|
  {
    if actions != [] {
      StepKeepsReturned(max, s, actions[0]);
      RunKeepsReturned(max, Step(max, s, actions[0]).value, actions[1..]);
    }
  }

  /** An attempt succeeds and its retry keys are cleared. */
  lemma ReturnAndClear(max: Attempts, s: State, before: seq<Action>, w: nat, m: nat, v: int) returns (actions: seq<Action>)
    requires Drives(max, s, before, w, m, Attempt(m)) && s.messages[m].payloadParses
    ensures Drives(max, s, actions, w, m, ClearRetries(m, Handled(v)))
    ensures s.messages[m].commandId !in End(max, s, actions).store.retries
    ensures (s.messages[m].commandId, v) in End(max, s, actions).history.returned
    ensures ClearingWorks(max, s, before) ==> ClearingWorks(max, s, actions)
  {
    actions := Drive(max, s, before, w, m, Attempt(m), Proceed, Handling(m));
    actions := Drive(max, s, actions, w, m, Handling(m), Return(v), ClearAfterSuccess(m, Handled(v)));
    actions := Drive(max, s, actions, w, m, ClearAfterSuccess(m, Handled(v)), Proceed, ClearRetries(m, Handled(v)));
  }

  /** The handler succeeds with any value, its retry keys are cleared, and the worker
      is interrupted: the command is fresh again. */
  lemma InterruptAfterSuccess(max: Attempts, s: State, w: nat, m: nat, v: int) returns (actions: seq<Action>)
    requires CanTake(s, w, m) && s.messages[m].payloadParses
    ensures Run(max, s, actions).Some? && CanTake(End(max, s, actions), w, m)
    ensures End(max, s, actions).messages == s.messages && End(max, s, actions).store.results == s.store.results
    ensures (s.messages[m].commandId, v) in End(max, s, actions).history.returned
    ensures ClearingWorks(max, s, actions)
  {
    actions := ReachAttempt(max, s, w, m);
    actions := ReturnAndClear(max, s, actions, w, m, v);
    RunExtends(max, s, actions, Interrupt(w));
    ClearingExtends(max, s, actions, Interrupt(w));
    actions := actions + [Interrupt(w)];
  }

  /** The redelivered command then fails to the end: no clearing has failed after a
      success, and what is stored is a dead letter. */
  lemma InterruptedSuccessCanBeDeadLettered(max: Attempts, s: State, w: nat, m: nat, v: int) returns (actions: seq<Action>)
    requires CanTake(s, w, m) && s.messages[m].payloadParses
    ensures Run(max, s, actions).Some? && ClearingWorks(max, s, actions)
    ensures var (t, c) := (Run(max, s, actions).value, s.messages[m].commandId);
      (c, v) in t.history.returned && t.store.results == s.store.results[c := DeadLettered(max)]
  {
    actions := InterruptAfterSuccess(max, s, w, m, v);
    var redelivered := End(max, s, actions);
    var more := ReachStoreResult(max, redelivered, w, m);
    RunKeepsReturned(max, redelivered, more);
    RunConcat(max, s, actions, more);
    ClearingConcat(max, s, actions, more);
    actions := actions + more;
    RunExtends(max, s, actions, Advance(w, Proceed));
    ClearingExtends(max, s, actions, Advance(w, Proceed));
    actions := actions + [Advance(w, Proceed)];
  }
}
