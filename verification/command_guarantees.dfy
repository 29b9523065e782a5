/** What the command processor promises over whole runs: for any interleaving of
    workers, duplicate publications, redeliveries and interruptions. */
module CommandGuarantees {
  import opened Collections
  import opened CommandProtocol

  ghost predicate MessagesGrow(s: State, t: State) {
    s.messages <= t.messages && |s.workers| == |t.workers|
  }

  lemma StepGrows(max: Attempts, s: State, a: Action)
    requires Step(max, s, a).Some?
    ensures MessagesGrow(s, Step(max, s, a).value)
  {
  }

  lemma {:induction false} RunGrows(max: Attempts, s: State, actions: seq<Action>)
    requires Run(max, s, actions).Some?
    ensures MessagesGrow(s, Run(max, s, actions).value)
    decreases |actions|
  {
    if actions != [] {
      StepGrows(max, s, actions[0]);
      RunGrows(max, Step(max, s, actions[0]).value, actions[1..]);
    }
  }

  lemma PrefixSingleHomed(home: string -> nat, early: seq<Message>, late: seq<Message>)
    requires early <= late && SingleHomed(home, late)
    ensures SingleHomed(home, early)
  {
    assert forall i :: 0 <= i < |early| ==> early[i] == late[i];
  }

  lemma {:induction false} RunKeepsInv(max: Attempts, home: string -> nat, s: State, actions: seq<Action>)
    requires Inv(max, home, s) && Run(max, s, actions).Some?
    requires SingleHomed(home, Run(max, s, actions).value.messages)
    ensures Inv(max, home, Run(max, s, actions).value)
    decreases |actions|
  {
    if actions != [] {
      var next := Step(max, s, actions[0]).value;
      RunGrows(max, s, actions);
      PrefixSingleHomed(home, s.messages, Run(max, s, actions).value.messages);
      StepKeepsInv(max, home, s, actions[0]);
      RunKeepsInv(max, home, next, actions[1..]);
    }
  }

  /** Every command identifier is published to a single partition. */
  ghost predicate OnePartitionEach(messages: seq<Message>) {
    forall i, j :: 0 <= i < |messages| && 0 <= j < |messages| && SameCommand(messages[i], messages[j]) ==>
      messages[i].partition == messages[j].partition
  }

  predicate SameCommand(a: Message, b: Message) {
    WellFormed(a) && WellFormed(b) && a.commandId == b.commandId
  }

  ghost function HomeOf(messages: seq<Message>, c: string): nat {
    if i :| 0 <= i < |messages| && WellFormed(messages[i]) && messages[i].commandId == c then messages[i].partition else 0
  }

  lemma OnePartitionGivesHome(messages: seq<Message>)
    requires OnePartitionEach(messages)
    ensures SingleHomed(c => HomeOf(messages, c), messages)
  {
    forall i | 0 <= i < |messages| && WellFormed(messages[i])
      ensures messages[i].partition == HomeOf(messages, messages[i].commandId)
    {
      var j :| 0 <= j < |messages| && WellFormed(messages[j]) && messages[j].commandId == messages[i].commandId
        && HomeOf(messages, messages[i].commandId) == messages[j].partition;
    }
  }

  // Where replies come from -----------------------------------------------------------

  /** A reply is what the handler returned for the command, or follows a completed
      dead-letter report with its number of attempts. */
  predicate Backed(h: History, c: string, r: Reply) {
    match r
    case Handled(value) => (c, value) in h.returned
    case DeadLettered(attempts) => (c, attempts) in h.deadLetters
  }

  /** The reply a worker is carrying. */
  function Carried(pc: Pc): Option<Reply> {
    match pc
    case Republish(_, r) => Some(r)
    case ClearAfterSuccess(_, r) => Some(r)
    case CountFailure(_, r) => r
    case ClearRetries(_, r) => Some(r)
    case StoreResult(_, r) => Some(r)
    case Publish(_, r) => Some(r)
    case _ => None
  }

  ghost predicate AllBacked(s: State) {
    && (forall w :: 0 <= w < |s.workers| ==> WorkerBacked(s, w))
    && OutputsBacked(s.store.results, s.store.replies, s.history)
  }

  ghost predicate WorkerBacked(s: State, w: nat)
    requires w < |s.workers|
  {
    var pc := s.workers[w];
    Carried(pc).Some? ==> pc.m < |s.messages| && Backed(s.history, s.messages[pc.m].commandId, Carried(pc).value)
  }

  ghost predicate HistoryGrows(h: History, i: History) {
    && h.returned <= i.returned
    && forall d :: d in h.deadLetters ==> d in i.deadLetters
  }

  lemma MoverStaysBacked(max: Attempts, s: State, w: nat, e: Event)
    requires AllBacked(s) && w < |s.workers| && AdvanceWorker(max, s, w, e).Some?
    ensures var t := AdvanceWorker(max, s, w, e).value;
      HistoryGrows(s.history, t.history) && WorkerBacked(t, w)
  {
    assert WorkerBacked(s, w);
    var t := AdvanceWorker(max, s, w, e).value;
    var pc := s.workers[w];
    if pc.DeadLetter? || pc.DeadLetterAgain? {
      assert t.history.deadLetters[|s.history.deadLetters|] == (s.messages[pc.m].commandId, pc.attempts);
    }
  }

  /** An effect writes at most the reply its worker carries, to one of the outputs. */
  lemma OutputsComeFromWorker(max: Attempts, s: State, w: nat, e: Event)
    requires w < |s.workers| && AdvanceWorker(max, s, w, e).Some?
    ensures var (t, pc) := (AdvanceWorker(max, s, w, e).value, s.workers[w]);
      var c := s.messages[pc.m].commandId;
      && t.store.results == (if pc.StoreResult? then s.store.results[c := pc.reply] else s.store.results)
      && t.store.replies == (if pc.Publish? then s.store.replies + [(c, pc.reply)]
                             else if pc.Republish? then s.store.replies + [(c, pc.stored)]
                             else s.store.replies)
  {
  }

  ghost predicate OutputsBacked(results: map<string, Reply>, replies: seq<(string, Reply)>, h: History) {
    && (forall c :: c in results ==> Backed(h, c, results[c]))
    && (forall i :: 0 <= i < |replies| ==> Backed(h, replies[i].0, replies[i].1))
  }

  lemma OutputsStayBacked(max: Attempts, s: State, w: nat, e: Event)
    requires AllBacked(s) && w < |s.workers| && AdvanceWorker(max, s, w, e).Some?
    requires HistoryGrows(s.history, AdvanceWorker(max, s, w, e).value.history)
    ensures var t := AdvanceWorker(max, s, w, e).value;
      OutputsBacked(t.store.results, t.store.replies, t.history)
  {
    assert WorkerBacked(s, w);
    OutputsComeFromWorker(max, s, w, e);
    BackedOutputsExtend(s, AdvanceWorker(max, s, w, e).value.history, s.workers[w]);
  }

  lemma BackedOutputsExtend(s: State, later: History, pc: Pc)
    requires OutputsBacked(s.store.results, s.store.replies, s.history) && HistoryGrows(s.history, later)
    requires Carried(pc).Some? ==> pc.m < |s.messages| && Backed(s.history, s.messages[pc.m].commandId, Carried(pc).value)
    ensures OutputsBacked(s.store.results, s.store.replies, later)
    ensures Carried(pc).Some? ==>
      var (c, r) := (s.messages[pc.m].commandId, Carried(pc).value);
      OutputsBacked(s.store.results[c := r], s.store.replies + [(c, r)], later)
  {
  }

  lemma AdvanceKeepsBacked(max: Attempts, s: State, w: nat, e: Event)
    requires AllBacked(s) && w < |s.workers| && AdvanceWorker(max, s, w, e).Some?
    ensures AllBacked(AdvanceWorker(max, s, w, e).value)
  {
    var t := AdvanceWorker(max, s, w, e).value;
    MoverStaysBacked(max, s, w, e);
    OutputsStayBacked(max, s, w, e);
    OthersStay(max, s, w, e);
    forall v | 0 <= v < |t.workers|
      ensures WorkerBacked(t, v)
    {
      assert WorkerBacked(s, v);
    }
  }

  lemma OthersStay(max: Attempts, s: State, w: nat, e: Event)
    requires w < |s.workers| && AdvanceWorker(max, s, w, e).Some?
    ensures var t := AdvanceWorker(max, s, w, e).value;
      && t.messages == s.messages && |t.workers| == |s.workers|
      && forall v :: 0 <= v < |s.workers| && v != w ==> t.workers[v] == s.workers[v]
  {
  }

  lemma StepKeepsBacked(max: Attempts, s: State, a: Action)
    requires AllBacked(s) && Step(max, s, a).Some?
    ensures AllBacked(Step(max, s, a).value)
  {
    if a.Advance? {
      AdvanceKeepsBacked(max, s, a.worker, a.event);
    } else {
      OtherStepsKeepBacked(max, s, a);
    }
  }

  lemma OtherStepsKeepBacked(max: Attempts, s: State, a: Action)
    requires AllBacked(s) && Step(max, s, a).Some? && !a.Advance?
    ensures AllBacked(Step(max, s, a).value)
  {
    var t := Step(max, s, a).value;
    assert t.history.returned == s.history.returned && t.history.deadLetters == s.history.deadLetters;
    forall w | 0 <= w < |t.workers|
      ensures WorkerBacked(t, w)
    {
      assert WorkerBacked(s, w);
    }
  }

  lemma {:induction false} RunKeepsBacked(max: Attempts, s: State, actions: seq<Action>)
    requires AllBacked(s) && Run(max, s, actions).Some?
    ensures AllBacked(Run(max, s, actions).value)
    decreases |actions|
  {
    if actions != [] {
      StepKeepsBacked(max, s, actions[0]);
      RunKeepsBacked(max, Step(max, s, actions[0]).value, actions[1..]);
    }
  }

  /** In every run, on however many partitions: a stored or pushed reply is a value
      the handler returned for that command, or was reported as a dead letter. */
  lemma RepliesAreBacked(max: Attempts, partitions: nat, actions: seq<Action>)
    requires Run(max, Initial(partitions), actions).Some?
    ensures var t := Run(max, Initial(partitions), actions).value;
      OutputsBacked(t.store.results, t.store.replies, t.history)
  {
    RunKeepsBacked(max, Initial(partitions), actions);
  }

  /** After any run: an acknowledged well-formed message has its result; a result
      is written once; every reply ever pushed is that result; the retry counter
      stays within the limit; the handler is called at most `max` times per
      command and interruption-free stretch; and a dead-letter result was
      preceded by a completed dead-letter report with exactly `max` attempts, and
      any other result was returned by the handler for that command. */
  lemma DeliveryGuarantees(max: Attempts, partitions: nat, actions: seq<Action>)
    requires Run(max, Initial(partitions), actions).Some?
    requires OnePartitionEach(Run(max, Initial(partitions), actions).value.messages)
    ensures var t := Run(max, Initial(partitions), actions).value;
      && (forall m :: m in t.store.acked ==>
           m < |t.messages| && (WellFormed(t.messages[m]) ==> t.messages[m].commandId in t.store.results))
      && (forall i :: 0 <= i < |t.store.replies| ==>
           t.store.replies[i].0 in t.store.results && t.store.results[t.store.replies[i].0] == t.store.replies[i].1)
      && (forall c :: c != "" ==>
           && At(t.history.writes, c) <= 1
           && At(t.store.retries, c) <= max
           && At(t.history.calls, c) <= max * (At(t.history.interruptions, c) + 1)
           && (c in t.store.results && t.store.results[c].Handled? ==> (c, t.store.results[c].value) in t.history.returned)
           && (c in t.store.results && t.store.results[c].DeadLettered? ==>
                t.store.results[c].attempts == max && (c, max as nat) in t.history.deadLetters))
  {
    RepliesAreBacked(max, partitions, actions);
    var t := Run(max, Initial(partitions), actions).value;
    var home := c => HomeOf(t.messages, c);
    OnePartitionGivesHome(t.messages);
    InitialInv(max, home, partitions);
    RunKeepsInv(max, home, Initial(partitions), actions);
    forall c | c != ""
      ensures && At(t.history.writes, c) <= 1
        && At(t.store.retries, c) <= max
        && At(t.history.calls, c) <= max * (At(t.history.interruptions, c) + 1)
        && (c in t.store.results && t.store.results[c].DeadLettered? ==>
             t.store.results[c].attempts == max && (c, max as nat) in t.history.deadLetters)
    {
      assert CommandOk(max, home, t, c);
      OneMore(max, At(t.history.interruptions, c));
      if Processing(t, home(c), c) && c !in t.store.results {
        CallsWithinBudget(max, home, t, c);
      }
    }
  }

  lemma CallsWithinBudget(max: Attempts, home: string -> nat, s: State, c: string)
    requires CommandOk(max, home, s, c) && c !in s.store.results && Processing(s, home(c), c)
    ensures At(s.history.calls, c) <= max * At(s.history.interruptions, c) + max
  {
    var pc := s.workers[home(c)];
    assert PhaseOk(max, s, pc, c);
  }

  /** Once stored, a result is final: no later step changes it, writes it again
      or calls the handler for the command. */
  ghost predicate Settled(s: State, t: State, c: string) {
    && c in s.store.results && c in t.store.results && t.store.results[c] == s.store.results[c]
    && At(t.history.calls, c) == At(s.history.calls, c)
    && At(t.history.writes, c) == At(s.history.writes, c)
  }

  lemma StepKeepsSettled(max: Attempts, home: string -> nat, s: State, a: Action, c: string)
    requires Inv(max, home, s) && SingleHomed(home, s.messages) && Step(max, s, a).Some?
    requires c != "" && c in s.store.results
    ensures Settled(s, Step(max, s, a).value, c)
  {
    if a.Advance? {
      var w := a.worker;
      assert WorkerOk(s, w) && CommandOk(max, home, s, c);
      var message := s.messages[s.workers[w].m];
      if message.commandId == c && WellFormed(message) {
        assert home(c) == w && Processing(s, w, c);
        assert StoredPhaseOk(s.workers[w], s.store.results[c]);
      }
    }
  }

  lemma {:induction false} ResultIsFinal(max: Attempts, home: string -> nat, s: State, actions: seq<Action>, c: string)
    requires Inv(max, home, s) && Run(max, s, actions).Some?
    requires SingleHomed(home, Run(max, s, actions).value.messages)
    requires c != "" && c in s.store.results
    ensures Settled(s, Run(max, s, actions).value, c)
    decreases |actions|
  {
    if actions != [] {
      RunGrows(max, s, actions);
      PrefixSingleHomed(home, s.messages, Run(max, s, actions).value.messages);
      StepKeepsInv(max, home, s, actions[0]);
      StepKeepsSettled(max, home, s, actions[0], c);
      ResultIsFinal(max, home, Step(max, s, actions[0]).value, actions[1..], c);
    }
  }

  // Termination of one delivery ------------------------------------------------

  function Left(max: Attempts, s: State, m: nat): nat {
    if m < |s.messages| && At(s.store.retries, s.messages[m].commandId) <= max
    then max - At(s.store.retries, s.messages[m].commandId) else 0
  }

  /** Effects still ahead of a worker, at most. */
  function Remaining(max: Attempts, s: State, w: nat): nat
    requires w < |s.workers|
  {
    match s.workers[w]
    case Idle => 0
    case Acknowledge(_) => 1
    case Republish(_, _) => 2
    case Publish(_, _) => 2
    case StoreResult(_, _) => 3
    case ClearRetries(_, _) => 4
    case DeadLetter(_, _) => 5
    case DeadLetterAgain(_, _) => 5
    case RecordFailure(_, _) => 6
    case CountFailure(m, _) => 7 + 4 * Left(max, s, m)
    case ClearAfterSuccess(m, _) => 8 + 4 * Left(max, s, m)
    case Handling(m) => 9 + 4 * Left(max, s, m)
    case Attempt(m) => 10 + 4 * Left(max, s, m)
    case ReadRetries(m) => 11 + 4 * Left(max, s, m)
    case Lookup(m) => 12 + 4 * Left(max, s, m)
  }

  /** Left alone, a worker always has a next effect, and every effect brings it
      closer to the acknowledgement: the retry loop cannot run forever. */
  lemma ProcessingTerminates(max: Attempts, home: string -> nat, s: State, w: nat, e: Event)
    requires Inv(max, home, s) && SingleHomed(home, s.messages) && w < |s.workers| && !s.workers[w].Idle?
    ensures Remaining(max, s, w) <= 12 + 4 * max
    ensures AdvanceWorker(max, s, w, Proceed).Some? || AdvanceWorker(max, s, w, Return(0)).Some?
    ensures AdvanceWorker(max, s, w, e).Some? ==>
      Remaining(max, AdvanceWorker(max, s, w, e).value, w) < Remaining(max, s, w)
  {
    assert WorkerOk(s, w);
    var c := s.messages[s.workers[w].m].commandId;
    if WellFormed(s.messages[s.workers[w].m]) {
      assert CommandOk(max, home, s, c) && Processing(s, home(c), c);
    }
    if AdvanceWorker(max, s, w, e).Some? {
      AdvanceComesCloser(max, s, w, e);
    }
  }

  ghost predicate Within(max: Attempts, s: State, w: nat)
    requires w < |s.workers|
  {
    var pc := s.workers[w];
    && !pc.Idle? && pc.m < |s.messages|
    && (pc.CountFailure? || pc.Attempt? ==> At(s.store.retries, s.messages[pc.m].commandId) < max)
    && (!pc.Acknowledge? ==> At(s.store.retries, s.messages[pc.m].commandId) <= max)
  }

  lemma DecidingComesCloser(max: Attempts, s: State, w: nat, e: Event)
    requires w < |s.workers| && AdvanceWorker(max, s, w, e).Some? && Within(max, s, w) && Deciding(s.workers[w])
    ensures Remaining(max, AdvanceWorker(max, s, w, e).value, w) < Remaining(max, s, w)
  {
    assert AdvanceWorker(max, s, w, e).value.messages == s.messages;
  }

  lemma AnsweringComesCloser(max: Attempts, s: State, w: nat, e: Event)
    requires w < |s.workers| && AdvanceWorker(max, s, w, e).Some? && Within(max, s, w) && !Deciding(s.workers[w])
    ensures Remaining(max, AdvanceWorker(max, s, w, e).value, w) < Remaining(max, s, w)
  {
  }

  lemma AdvanceComesCloser(max: Attempts, s: State, w: nat, e: Event)
    requires w < |s.workers| && AdvanceWorker(max, s, w, e).Some? && Within(max, s, w)
    ensures Remaining(max, AdvanceWorker(max, s, w, e).value, w) < Remaining(max, s, w)
  {
    if Deciding(s.workers[w]) {
      DecidingComesCloser(max, s, w, e);
    } else {
      AnsweringComesCloser(max, s, w, e);
    }
  }

  // One partition per command is needed -----------------------------------------

  lemma {:induction false} RunExtends(max: Attempts, s: State, actions: seq<Action>, a: Action)
    requires Run(max, s, actions).Some?
    ensures Run(max, s, actions + [a]) == Step(max, Run(max, s, actions).value, a)
    decreases |actions|
  {
    if actions == [] {
      assert actions + [a] == [a];
      assert Step(max, s, a).Some? ==> Run(max, Step(max, s, a).value, [a][1..]) == Step(max, s, a);
    } else {
      RunExtends(max, Step(max, s, actions[0]).value, actions[1..], a);
      assert (actions + [a])[1..] == actions[1..] + [a];
    }
  }

  lemma RunStep(max: Attempts, s: State, actions: seq<Action>)
    requires actions != [] && Step(max, s, actions[0]).Some?
    ensures Run(max, s, actions) == Run(max, Step(max, s, actions[0]).value, actions[1..])
  {
  }

  lemma {:induction false} RunConcat(max: Attempts, s: State, xs: seq<Action>, ys: seq<Action>)
    requires Run(max, s, xs).Some?
    ensures Run(max, s, xs + ys) == Run(max, Run(max, s, xs).value, ys)
    decreases |xs|
  {
    var all := xs + ys;
    if xs == [] {
      assert all == ys;
    } else {
      assert Step(max, s, xs[0]).Some?;
      RunStep(max, s, xs);
      RunStep(max, s, all);
      assert all[1..] == xs[1..] + ys;
      RunConcat(max, Step(max, s, xs[0]).value, xs[1..], ys);
    }
  }

  /** Only this worker, its command's counters and the history have moved. */
  ghost predicate OnlyMoved(s: State, t: State, w: nat, m: nat, pc: Pc) {
    && w < |s.workers| && m < |s.messages|
    && t.messages == s.messages && t.workers == s.workers[w := pc]
    && t.store.results == s.store.results && t.store.acked == s.store.acked
    && t.history.writes == s.history.writes && t.history.interruptions == s.history.interruptions
  }

  predicate ClearingFails(s: State, a: Action) {
    a.Advance? && a.event.Fail? && a.worker < |s.workers| && s.workers[a.worker].ClearAfterSuccess?
  }

  /** Whenever the handler has returned, clearing its retry keys works. */
  ghost predicate ClearingWorks(max: Attempts, s: State, actions: seq<Action>)
    decreases |actions|
  {
    actions != [] ==>
      && !ClearingFails(s, actions[0])
      && (Step(max, s, actions[0]).Some? ==> ClearingWorks(max, Step(max, s, actions[0]).value, actions[1..]))
  }

  lemma {:induction false} ClearingConcat(max: Attempts, s: State, xs: seq<Action>, ys: seq<Action>)
    requires Run(max, s, xs).Some?
    ensures ClearingWorks(max, s, xs + ys) <==>
      ClearingWorks(max, s, xs) && ClearingWorks(max, Run(max, s, xs).value, ys)
    decreases |xs|
  {
    if xs == [] {
      assert xs + ys == ys;
    } else {
      assert (xs + ys)[1..] == xs[1..] + ys;
      ClearingConcat(max, Step(max, s, xs[0]).value, xs[1..], ys);
    }
  }

  lemma ClearingExtends(max: Attempts, s: State, actions: seq<Action>, a: Action)
    requires Run(max, s, actions).Some? && ClearingWorks(max, s, actions)
    requires !ClearingFails(Run(max, s, actions).value, a)
    ensures ClearingWorks(max, s, actions + [a])
  {
    ClearingConcat(max, s, actions, [a]);
  }

  /** A state that is reached from `s` by `actions`, with one worker moved. */
  ghost predicate Drives(max: Attempts, s: State, actions: seq<Action>, w: nat, m: nat, pc: Pc) {
    Run(max, s, actions).Some? && OnlyMoved(s, Run(max, s, actions).value, w, m, pc)
  }

  function End(max: Attempts, s: State, actions: seq<Action>): State
    requires Run(max, s, actions).Some?
  {
    Run(max, s, actions).value
  }

  /** One more effect of the driven worker. */
  lemma Drive(max: Attempts, s: State, actions: seq<Action>, w: nat, m: nat, pc: Pc, e: Event, next: Pc)
    returns (more: seq<Action>)
    requires Drives(max, s, actions, w, m, pc) && AdvanceWorker(max, End(max, s, actions), w, e).Some?
    requires OnlyMoved(s, AdvanceWorker(max, End(max, s, actions), w, e).value, w, m, next)
    ensures Drives(max, s, more, w, m, next)
    ensures End(max, s, more) == AdvanceWorker(max, End(max, s, actions), w, e).value
    ensures ClearingWorks(max, s, actions) && !(pc.ClearAfterSuccess? && e.Fail?) ==> ClearingWorks(max, s, more)
  {
    RunExtends(max, s, actions, Advance(w, e));
    if ClearingWorks(max, s, actions) && !(pc.ClearAfterSuccess? && e.Fail?) {
      ClearingExtends(max, s, actions, Advance(w, e));
    }
    more := actions + [Advance(w, e)];
  }

  ghost predicate CanTake(s: State, w: nat, m: nat) {
    && w < |s.workers| && s.workers[w].Idle? && m < |s.messages| && m !in s.store.acked
    && s.messages[m].partition == w && WellFormed(s.messages[m])
    && s.messages[m].commandId !in s.store.results && s.messages[m].commandId !in s.store.retries
  }

  /** An idle worker takes a fresh command up to its first attempt. */
  lemma ReachAttempt(max: Attempts, s: State, w: nat, m: nat) returns (actions: seq<Action>)
    requires CanTake(s, w, m)
    ensures Drives(max, s, actions, w, m, Attempt(m))
    ensures End(max, s, actions).store == s.store && End(max, s, actions).history == s.history
    ensures ClearingWorks(max, s, actions)
  {
    RunExtends(max, s, [], Deliver(w, m));
    ClearingExtends(max, s, [], Deliver(w, m));
    actions := [] + [Deliver(w, m)];
    actions := Drive(max, s, actions, w, m, Lookup(m), Proceed, ReadRetries(m));
    actions := Drive(max, s, actions, w, m, ReadRetries(m), Proceed, Attempt(m));
  }

  /** An attempt fails: the payload does not parse, or the handler throws. */
  lemma FailAttempt(max: Attempts, s: State, before: seq<Action>, w: nat, m: nat) returns (actions: seq<Action>)
    requires Drives(max, s, before, w, m, Attempt(m))
    ensures Drives(max, s, actions, w, m, CountFailure(m, None))
    ensures End(max, s, actions).store == End(max, s, before).store
    ensures ClearingWorks(max, s, before) ==> ClearingWorks(max, s, actions)
  {
    if s.messages[m].payloadParses {
      actions := Drive(max, s, before, w, m, Attempt(m), Proceed, Handling(m));
      actions := Drive(max, s, actions, w, m, Handling(m), Fail, CountFailure(m, None));
    } else {
      actions := Drive(max, s, before, w, m, Attempt(m), Proceed, CountFailure(m, None));
    }
  }

  /** All attempts but the last one fail. */
  lemma {:induction false} FailAllButOne(max: Attempts, s: State, before: seq<Action>, w: nat, m: nat) returns (actions: seq<Action>)
    requires Drives(max, s, before, w, m, Attempt(m))
    requires At(End(max, s, before).store.retries, s.messages[m].commandId) < max
    ensures Drives(max, s, actions, w, m, Attempt(m))
    ensures At(End(max, s, actions).store.retries, s.messages[m].commandId) == max - 1
    ensures ClearingWorks(max, s, before) ==> ClearingWorks(max, s, actions)
    decreases max - At(End(max, s, before).store.retries, s.messages[m].commandId)
  {
    actions := before;
    if At(End(max, s, before).store.retries, s.messages[m].commandId) < max - 1 {
      actions := FailAttempt(max, s, before, w, m);
      actions := Drive(max, s, actions, w, m, CountFailure(m, None), Proceed, Attempt(m));
      actions := FailAllButOne(max, s, actions, w, m);
    }
  }

  lemma ReachReport(max: Attempts, s: State, before: seq<Action>, w: nat, m: nat, pending: Option<Reply>)
    returns (actions: seq<Action>)
    requires Drives(max, s, before, w, m, CountFailure(m, pending))
    requires At(End(max, s, before).store.retries, s.messages[m].commandId) == max - 1
    ensures Drives(max, s, actions, w, m, DeadLetter(m, max))
    ensures End(max, s, actions).store.retries == End(max, s, before).store.retries[s.messages[m].commandId := max]
    ensures End(max, s, actions).history == End(max, s, before).history
    ensures ClearingWorks(max, s, before) ==> ClearingWorks(max, s, actions)
  {
    actions := Drive(max, s, before, w, m, CountFailure(m, pending), Proceed, RecordFailure(m, max));
    actions := Drive(max, s, actions, w, m, RecordFailure(m, max), Proceed, DeadLetter(m, max));
  }

  /** A last failure leads to the dead letter, whatever the handler returned. */
  lemma ReachDeadLetter(max: Attempts, s: State, before: seq<Action>, w: nat, m: nat, pending: Option<Reply>)
    returns (actions: seq<Action>)
    requires Drives(max, s, before, w, m, CountFailure(m, pending))
    requires At(End(max, s, before).store.retries, s.messages[m].commandId) == max - 1
    ensures Drives(max, s, actions, w, m, StoreResult(m, DeadLettered(max)))
    ensures s.messages[m].commandId !in End(max, s, actions).store.retries
    ensures End(max, s, before).history.returned == End(max, s, actions).history.returned
    ensures ClearingWorks(max, s, before) ==> ClearingWorks(max, s, actions)
  {
    actions := ReachReport(max, s, before, w, m, pending);
    actions := Drive(max, s, actions, w, m, DeadLetter(m, max), Proceed, ClearRetries(m, DeadLettered(max)));
    actions := Drive(max, s, actions, w, m, ClearRetries(m, DeadLettered(max)), Proceed, StoreResult(m, DeadLettered(max)));
  }

  /** An idle worker can take any fresh command to the point of storing a result,
      whether or not its payload parses. */
  lemma ReachStoreResult(max: Attempts, s: State, w: nat, m: nat) returns (actions: seq<Action>)
    requires CanTake(s, w, m)
    ensures Drives(max, s, actions, w, m, StoreResult(m, DeadLettered(max)))
    ensures s.messages[m].commandId !in End(max, s, actions).store.retries
    ensures ClearingWorks(max, s, actions)
  {
    actions := ReachAttempt(max, s, w, m);
    actions := FailAllButOne(max, s, actions, w, m);
    actions := FailAttempt(max, s, actions, w, m);
    actions := ReachDeadLetter(max, s, actions, w, m, None);
  }

  /** The handler returns at an attempt, but the deletion of the retry keys fails. */
  lemma ReturnWithoutClearing(max: Attempts, s: State, before: seq<Action>, w: nat, m: nat, v: int) returns (actions: seq<Action>)
    requires Drives(max, s, before, w, m, Attempt(m)) && s.messages[m].payloadParses
    ensures Drives(max, s, actions, w, m, CountFailure(m, Some(Handled(v))))
    ensures End(max, s, actions).store == End(max, s, before).store
    ensures (s.messages[m].commandId, v) in End(max, s, actions).history.returned
  {
    actions := Drive(max, s, before, w, m, Attempt(m), Proceed, Handling(m));
    actions := Drive(max, s, actions, w, m, Handling(m), Return(v), ClearAfterSuccess(m, Handled(v)));
    actions := Drive(max, s, actions, w, m, ClearAfterSuccess(m, Handled(v)), Fail, CountFailure(m, Some(Handled(v))));
  }

  /** The handler succeeds at the last attempt with any value, the deletion of the
      retry keys behind it fails, and without any interruption what is stored is a
      dead letter. */
  lemma SuccessCanBeDeadLettered(max: Attempts, s: State, w: nat, m: nat, v: int) returns (actions: seq<Action>)
    requires CanTake(s, w, m) && s.messages[m].payloadParses
    ensures Run(max, s, actions).Some?
    ensures var (t, c) := (Run(max, s, actions).value, s.messages[m].commandId);
      && (c, v) in t.history.returned && t.store.results == s.store.results[c := DeadLettered(max)]
      && t.history.interruptions == s.history.interruptions
  {
    actions := ReachAttempt(max, s, w, m);
    actions := FailAllButOne(max, s, actions, w, m);
    actions := ReturnWithoutClearing(max, s, actions, w, m, v);
    actions := ReachDeadLetter(max, s, actions, w, m, Some(Handled(v)));
    RunExtends(max, s, actions, Advance(w, Proceed));
    actions := actions + [Advance(w, Proceed)];
  }

  /** Two idle workers that are both handed the same fresh command can write its
      result twice: a caller that publishes one command identifier under two
      partition keys loses the exactly-once result. */
  lemma TwoPartitionsWriteTwice(max: Attempts, s: State, i: nat, j: nat) returns (actions: seq<Action>)
    requires i < |s.messages| && j < |s.messages| && SameCommand(s.messages[i], s.messages[j])
    requires s.messages[i].partition != s.messages[j].partition
    requires s.messages[i].partition < |s.workers| && s.messages[j].partition < |s.workers|
    requires s.workers[s.messages[i].partition].Idle? && s.workers[s.messages[j].partition].Idle?
    requires i !in s.store.acked && j !in s.store.acked
    requires s.messages[i].commandId !in s.store.results && s.messages[i].commandId !in s.store.retries
    ensures Run(max, s, actions).Some? && Run(max, s, actions).value.messages == s.messages
    ensures At(Run(max, s, actions).value.history.writes, s.messages[i].commandId)
      == At(s.history.writes, s.messages[i].commandId) + 2
  {
    var v, w := s.messages[i].partition, s.messages[j].partition;
    actions := ReachStoreResult(max, s, v, i);
    var t := End(max, s, actions);
    var more := ReachStoreResult(max, t, w, j);
    RunConcat(max, s, actions, more);
    actions := actions + more;
    var u := End(max, s, actions);
    assert u.workers[v] == StoreResult(i, DeadLettered(max)) && u.workers[w] == StoreResult(j, DeadLettered(max));
    RunExtends(max, s, actions, Advance(v, Proceed));
    actions := actions + [Advance(v, Proceed)];
    RunExtends(max, s, actions, Advance(w, Proceed));
    actions := actions + [Advance(w, Proceed)];
  }

  lemma {:induction false} EnqueueAll(max: Attempts, partitions: nat, messages: seq<Message>) returns (actions: seq<Action>)
    requires forall i :: 0 <= i < |messages| ==> messages[i].partition < partitions
    ensures Run(max, Initial(partitions), actions) == Some(Initial(partitions).(messages := messages))
  {
    actions := [];
    for i := 0 to |messages|
      invariant Run(max, Initial(partitions), actions) == Some(Initial(partitions).(messages := messages[..i]))
    {
      RunExtends(max, Initial(partitions), actions, Enqueue(messages[i]));
      actions := actions + [Enqueue(messages[i])];
      assert messages[..i + 1] == messages[..i] + [messages[i]];
    }
    assert messages[..|messages|] == messages;
  }

  /** Publishing each command to one partition is exactly what makes results
      single: with it no run writes a result twice, without it some run does. */
  lemma SingleResultIffOnePartition(max: Attempts, partitions: nat, messages: seq<Message>)
    requires forall i :: 0 <= i < |messages| ==> messages[i].partition < partitions
    ensures OnePartitionEach(messages) <==>
      forall actions :: PublishesExactly(max, partitions, messages, actions) ==>
        NoSecondWrite(Run(max, Initial(partitions), actions).value)
  {
    if OnePartitionEach(messages) {
      forall actions | PublishesExactly(max, partitions, messages, actions)
        ensures NoSecondWrite(Run(max, Initial(partitions), actions).value)
      {
        DeliveryGuarantees(max, partitions, actions);
      }
    } else {
      var i, j :| 0 <= i < |messages| && 0 <= j < |messages| && SameCommand(messages[i], messages[j])
        && messages[i].partition != messages[j].partition;
      var setup := EnqueueAll(max, partitions, messages);
      var s := Run(max, Initial(partitions), setup).value;
      var race := TwoPartitionsWriteTwice(max, s, i, j);
      RunConcat(max, Initial(partitions), setup, race);
      assert PublishesExactly(max, partitions, messages, setup + race);
      assert messages[i].commandId != "";
      assert !NoSecondWrite(Run(max, Initial(partitions), setup + race).value);
    }
  }

  ghost predicate PublishesExactly(max: Attempts, partitions: nat, messages: seq<Message>, actions: seq<Action>) {
    Run(max, Initial(partitions), actions).Some? && Run(max, Initial(partitions), actions).value.messages == messages
  }

  ghost predicate NoSecondWrite(s: State) {
    forall c :: c != "" ==> At(s.history.writes, c) <= 1
  }
}
