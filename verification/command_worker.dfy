/** The sequential worker code over its Redis keys, proved to be an uninterrupted
    path of the command protocol. */
module CommandWorker {
  import opened Collections
  import opened CommandProtocol
  import opened CommandGuarantees

  /** What the n-th call of the handler does, and whether clearing the retry
      keys right after a success works. */
  datatype Outcome = Returns(value: int, cleared: bool) | Throws

  /** The response of the retry loop, with `left` attempts before the limit, from
      what the handler does at its `k`-th call on. */
  function Expected(max: Attempts, handler: nat -> Outcome, k: nat, left: nat): Reply
    requires left > 0
    decreases left
  {
    match handler(k)
    case Returns(value, cleared) => if cleared || left > 1 then Handled(value) else DeadLettered(max)
    case Throws => if left > 1 then Expected(max, handler, k + 1, left - 1) else DeadLettered(max)
  }

  /** The handler's `i`-th call settles the command, `last` being the last attempt. */
  predicate Settles(handler: nat -> Outcome, i: nat, last: nat) {
    handler(i).Returns? && (handler(i).cleared || i < last)
  }

  ghost predicate NoneSettles(handler: nat -> Outcome, k: nat, last: nat) {
    forall i: nat :: k <= i <= last ==> !Settles(handler, i, last)
  }

  /** The `i`-th call settles the command and is the first one that returns. */
  ghost predicate FirstToReturn(handler: nat -> Outcome, k: nat, i: nat, last: nat) {
    k <= i <= last && Settles(handler, i, last) && forall j: nat :: k <= j < i ==> handler(j).Throws?
  }

  /** The loop answers with the first value the handler returns, unless that comes
      at the last attempt and clearing the keys behind it fails; otherwise, and only
      then, it gives up. */
  lemma {:induction false} ExpectedMeaning(max: Attempts, handler: nat -> Outcome, k: nat, last: nat)
    requires k <= last
    ensures var r := Expected(max, handler, k, last - k + 1);
      && (r.DeadLettered? <==> NoneSettles(handler, k, last))
      && (r.DeadLettered? ==> r.attempts == max)
      && (r.Handled? ==> exists i :: FirstToReturn(handler, k, i, last) && handler(i).value == r.value)
    decreases last - k
  {
    var r := Expected(max, handler, k, last - k + 1);
    if handler(k).Returns? {
      assert Settles(handler, k, last) <==> r.Handled?;
      assert r.Handled? ==> FirstToReturn(handler, k, k, last);
    } else if k < last {
      ExpectedMeaning(max, handler, k + 1, last);
      assert !Settles(handler, k, last);
      assert NoneSettles(handler, k, last) <==> NoneSettles(handler, k + 1, last);
      if r.Handled? {
        var i :| FirstToReturn(handler, k + 1, i, last) && handler(i).value == r.value;
        assert FirstToReturn(handler, k, i, last);
      }
    }
  }

  /** What processing a fresh command answers, from the persisted counter and the
      handler's calls from the `k`-th on. */
  function AnswerFrom(max: Attempts, message: Message, persisted: nat, handler: nat -> Outcome, k: nat): Reply {
    if persisted >= max then DeadLettered(persisted)
    else if !message.payloadParses then DeadLettered(max)
    else Expected(max, handler, k, max - persisted)
  }

  function Answer(max: Attempts, message: Message, persisted: nat, handler: nat -> Outcome): Reply {
    AnswerFrom(max, message, persisted, handler, 0)
  }

  /** What one round of the loop answers, if anything. */
  function RoundAnswer(max: Attempts, message: Message, attempts: nat, outcome: Outcome): Option<Reply> {
    if message.payloadParses && outcome.Returns? && (outcome.cleared || attempts + 1 < max) then Some(Handled(outcome.value))
    else if attempts + 1 >= max then Some(DeadLettered(attempts + 1))
    else None
  }

  lemma RoundDecides(max: Attempts, message: Message, attempts: nat, handler: nat -> Outcome, k: nat)
    requires attempts < max
    ensures var round := RoundAnswer(max, message, attempts, handler(k));
      AnswerFrom(max, message, attempts, handler, k) ==
      if round.Some? then round.value else AnswerFrom(max, message, attempts + 1, handler, k + 1)
  {
  }

  /** An uninterrupted path of one worker: its effects with their outcomes. */
  function Replay(max: Attempts, s: State, w: nat, events: seq<Event>): Option<State>
    decreases |events|
  {
    if w >= |s.workers| then None
    else if events == [] then Some(s)
    else
      var next := AdvanceWorker(max, s, w, events[0]);
      if next.None? then None else Replay(max, next.value, w, events[1..])
  }

  lemma {:induction false} ReplayExtends(max: Attempts, s: State, w: nat, events: seq<Event>, e: Event)
    requires Replay(max, s, w, events).Some?
    ensures w < |Replay(max, s, w, events).value.workers|
    ensures AdvanceWorker(max, Replay(max, s, w, events).value, w, e).Some? ==>
      Replay(max, s, w, events + [e]) == AdvanceWorker(max, Replay(max, s, w, events).value, w, e)
    decreases |events|
  {
    if events == [] {
      assert events + [e] == [e] && [e][1..] == [];
    } else {
      ReplayExtends(max, AdvanceWorker(max, s, w, events[0]).value, w, events[1..], e);
      assert (events + [e])[1..] == events[1..] + [e];
    }
  }

  class Worker {
    const max: Attempts
    const partition: nat
    /** The stream and the Redis keys. */
    const messages: seq<Message>
    var results: map<string, Reply>
    var retries: map<string, nat>
    var failures: map<string, nat>
    var replies: seq<(string, Reply)>
    var acked: set<nat>
    /** The protocol state these keys belong to, and the effects so far. */
    ghost var start: State
    ghost var state: State
    ghost var events: seq<Event>

    ghost predicate Valid()
      reads this
    {
      && state.messages == messages && partition < |state.workers|
      && state.store == Store(results, retries, failures, replies, acked)
      && Replay(max, start, partition, events) == Some(state)
    }

    ghost function Pc(): CommandProtocol.Pc
      reads this
      requires Valid()
    {
      state.workers[partition]
    }

    /** Record that the effect just performed is the protocol's next one. */
    ghost method Took(e: Event)
      requires partition < |state.workers| && AdvanceWorker(max, state, partition, e).Some?
      requires Replay(max, start, partition, events) == Some(state)
      modifies this`state, this`events
      ensures state == AdvanceWorker(max, old(state), partition, e).value
      ensures Replay(max, start, partition, events) == Some(state)
    {
      ReplayExtends(max, start, partition, events, e);
      state := AdvanceWorker(max, state, partition, e).value;
      events := events + [e];
    }

    /** An effect that writes no key: a read, the handler, the dead-letter report. */
    ghost method Observe(e: Event, next: CommandProtocol.Pc)
      requires Valid() && AdvanceWorker(max, state, partition, e).Some?
      requires AdvanceWorker(max, state, partition, e).value.store == state.store
      requires AdvanceWorker(max, state, partition, e).value.messages == messages
      requires AdvanceWorker(max, state, partition, e).value.workers == state.workers[partition := next]
      modifies this`state, this`events
      ensures Valid() && Pc() == next
      ensures state.history == AdvanceWorker(max, old(state), partition, e).value.history
    {
      Took(e);
    }

    /** `producer.del([retryKey, failureKey])`. */
    method ClearKeys(m: nat, reply: Reply)
      requires Valid() && m < |messages|
      requires Pc() == ClearAfterSuccess(m, reply) || Pc() == ClearRetries(m, reply)
      modifies this`retries, this`failures, this`state, this`events
      ensures Valid()
      ensures Pc() == if old(Pc()).ClearRetries? then StoreResult(m, reply) else ClearRetries(m, reply)
    {
      retries, failures := retries - {messages[m].commandId}, failures - {messages[m].commandId};
      Took(Proceed);
    }

    /** `producer.incr(retryKey)` and what follows it in the catch block. */
    method CountFailedAttempt(m: nat, pending: Option<Reply>) returns (response: Option<Reply>)
      requires Valid() && m < |messages| && Pc() == CountFailure(m, pending)
      modifies this`retries, this`failures, this`state, this`events
      ensures Valid()
      ensures At(retries, messages[m].commandId) == old(At(retries, messages[m].commandId)) + 1
      ensures response == if At(retries, messages[m].commandId) >= max
        then Some(DeadLettered(At(retries, messages[m].commandId))) else pending
      ensures Pc() == if response.Some? then ClearRetries(m, response.value) else Attempt(m)
      ensures response.None? ==> At(retries, messages[m].commandId) < max
    {
      var commandId := messages[m].commandId;
      var attempts := At(retries, commandId) + 1;
      retries := retries[commandId := attempts];
      Took(Proceed);
      response := pending;
      if attempts >= max {
        GiveUp(m, attempts);
        response := Some(DeadLettered(attempts));
      }
    }

    /** The last failure is kept under its key and reported as a dead letter. */
    method GiveUp(m: nat, attempts: nat)
      requires Valid() && m < |messages| && Pc() == RecordFailure(m, attempts)
      modifies this`failures, this`state, this`events
      ensures Valid() && Pc() == ClearRetries(m, DeadLettered(attempts))
    {
      failures := failures[messages[m].commandId := attempts];
      Took(Proceed);
      Observe(Proceed, ClearRetries(m, DeadLettered(attempts)));
    }

    /** One call of the handler, with a failed parse or a throw ending in the
        catch block. */
    method CallHandler(m: nat, outcome: Outcome) returns (response: Option<Reply>)
      requires Valid() && m < |messages| && Pc() == Attempt(m)
      modifies this`retries, this`failures, this`state, this`events
      ensures Valid()
      ensures Pc() == (if messages[m].payloadParses && outcome.Returns? && outcome.cleared
        then ClearRetries(m, Handled(outcome.value)) else CountFailure(m, response))
      ensures response == if messages[m].payloadParses && outcome.Returns? then Some(Handled(outcome.value)) else None
      ensures Pc().CountFailure? ==> retries == old(retries)
    {
      response := None;
      if !messages[m].payloadParses {
        Observe(Proceed, CountFailure(m, None));
        return;
      }
      Observe(Proceed, Handling(m));
      match outcome {
        case Returns(value, cleared) =>
          Observe(Return(value), ClearAfterSuccess(m, Handled(value)));
          response := Some(Handled(value));
          if cleared {
            ClearKeys(m, Handled(value));
          } else {
            Observe(Fail, CountFailure(m, response));
          }
        case Throws =>
          Observe(Fail, CountFailure(m, None));
      }
    }

    /** One round of the retry loop. */
    method AttemptOnce(m: nat, outcome: Outcome) returns (response: Option<Reply>)
      requires Valid() && m < |messages| && Pc() == Attempt(m)
      requires At(retries, messages[m].commandId) < max
      modifies this`retries, this`failures, this`state, this`events
      ensures Valid()
      ensures response == RoundAnswer(max, messages[m], old(At(retries, messages[m].commandId)), outcome)
      ensures response.Some? ==> Pc() == ClearRetries(m, response.value)
      ensures response.None? ==> Pc() == Attempt(m)
      ensures response.None? ==>
        At(retries, messages[m].commandId) == old(At(retries, messages[m].commandId)) + 1 < max
    {
      response := CallHandler(m, outcome);
      if !messages[m].payloadParses || !outcome.Returns? || !outcome.cleared {
        response := CountFailedAttempt(m, response);
      }
    }

    /** The retry loop leaves with a response, and terminates because every
        further round has raised the persisted retry counter below its limit. */
    method AttemptUntilSettled(m: nat, handler: nat -> Outcome) returns (response: Reply)
      requires Valid() && m < |messages| && Pc() == Attempt(m)
      requires At(retries, messages[m].commandId) < max
      modifies this`retries, this`failures, this`state, this`events
      ensures Valid() && Pc() == ClearRetries(m, response)
      ensures response == Answer(max, messages[m], old(At(retries, messages[m].commandId)), handler)
    {
      var calls := 0;
      var pending: Option<Reply> := None;
      ghost var answer := Answer(max, messages[m], At(retries, messages[m].commandId), handler);
      while pending.None?
        invariant Valid()
        invariant pending.None? ==> Pc() == Attempt(m) && At(retries, messages[m].commandId) < max
        invariant pending.None? ==> answer == AnswerFrom(max, messages[m], At(retries, messages[m].commandId), handler, calls)
        invariant pending.Some? ==> Pc() == ClearRetries(m, pending.value) && pending.value == answer
        decreases pending.None?, max - At(retries, messages[m].commandId)
      {
        RoundDecides(max, messages[m], At(retries, messages[m].commandId), handler, calls);
        pending := AttemptOnce(m, handler(calls));
        calls := calls + 1;
      }
      response := pending.value;
    }

    method PublishResponse(m: nat, reply: Reply)
      requires Valid() && m < |messages|
      requires Pc() == Publish(m, reply) || Pc() == Republish(m, reply)
      modifies this`replies, this`state, this`events
      ensures Valid() && Pc() == Acknowledge(m) && state.history == old(state.history)
      ensures replies == old(replies) + [(messages[m].commandId, reply)]
    {
      replies := replies + [(messages[m].commandId, reply)];
      Took(Proceed);
    }

    method Ack(m: nat)
      requires Valid() && m < |messages| && Pc() == Acknowledge(m)
      modifies this`acked, this`state, this`events
      ensures Valid() && Pc().Idle? && state.history == old(state.history)
      ensures acked == old(acked) + {m}
    {
      acked := acked + {m};
      Took(Proceed);
    }

    method StoreReply(m: nat, reply: Reply)
      requires Valid() && m < |messages| && Pc() == StoreResult(m, reply)
      modifies this`results, this`state, this`events
      ensures Valid() && Pc() == Publish(m, reply)
      ensures results == old(results)[messages[m].commandId := reply]
    {
      results := results[messages[m].commandId := reply];
      Took(Proceed);
    }

    /** Processing a delivered message runs the protocol to the acknowledgement:
        the worker is idle again, the message is acknowledged, a well-formed
        command has its result, and the reply pushed last is that result. A
        command that already had one is answered from it without any call; the
        result of a fresh one is decided by the persisted counter and by what the
        handler and the clearing of the keys do. */
    method ProcessMessage(m: nat, handler: nat -> Outcome)
      requires Valid() && m < |messages|
      requires Pc() == if WellFormed(messages[m]) then Lookup(m) else Acknowledge(m)
      modifies this
      ensures Valid() && start == old(start) && Pc().Idle?
      ensures acked == old(acked) + {m}
      ensures WellFormed(messages[m]) ==>
        && messages[m].commandId in results
        && replies == old(replies) + [(messages[m].commandId, results[messages[m].commandId])]
      ensures !WellFormed(messages[m]) || messages[m].commandId in old(results) ==>
        results == old(results) && retries == old(retries) && state.history == old(state.history)
      ensures WellFormed(messages[m]) && messages[m].commandId !in old(results) ==>
        results == old(results)[messages[m].commandId :=
          Answer(max, messages[m], old(At(retries, messages[m].commandId)), handler)]
    {
      var message := messages[m];
      if message.commandId == "" || message.kind == "" {
        Ack(m);
        return;
      }
      if message.commandId in results {
        AnswerFromResult(m);
        return;
      }
      AnswerFresh(m, handler);
    }

    method AnswerFresh(m: nat, handler: nat -> Outcome)
      requires Valid() && m < |messages| && messages[m].commandId !in results && Pc() == Lookup(m)
      modifies this`results, this`retries, this`failures, this`replies, this`acked, this`state, this`events
      ensures Valid() && Pc().Idle? && acked == old(acked) + {m}
      ensures results == old(results)[messages[m].commandId :=
        Answer(max, messages[m], old(At(retries, messages[m].commandId)), handler)]
      ensures replies == old(replies) + [(messages[m].commandId, results[messages[m].commandId])]
    {
      Observe(Proceed, ReadRetries(m));
      var response := Respond(m, handler);
      Settle(m, response);
    }

    /** What follows the response: its keys are cleared, it is stored and pushed. */
    method Settle(m: nat, response: Reply)
      requires Valid() && m < |messages| && Pc() == ClearRetries(m, response)
      modifies this`results, this`retries, this`failures, this`replies, this`acked, this`state, this`events
      ensures Valid() && Pc().Idle? && acked == old(acked) + {m}
      ensures results == old(results)[messages[m].commandId := response]
      ensures replies == old(replies) + [(messages[m].commandId, response)]
    {
      ClearKeys(m, response);
      StoreReply(m, response);
      PublishResponse(m, response);
      Ack(m);
    }

    method AnswerFromResult(m: nat)
      requires Valid() && m < |messages| && messages[m].commandId in results && Pc() == Lookup(m)
      modifies this`replies, this`acked, this`state, this`events
      ensures Valid() && Pc().Idle? && acked == old(acked) + {m} && state.history == old(state.history)
      ensures replies == old(replies) + [(messages[m].commandId, results[messages[m].commandId])]
    {
      Observe(Proceed, Republish(m, results[messages[m].commandId]));
      PublishResponse(m, results[messages[m].commandId]);
      Ack(m);
    }

    /** From the persisted counter to a response: a dead letter again when the
        attempts are already used up, otherwise the retry loop. */
    method Respond(m: nat, handler: nat -> Outcome) returns (response: Reply)
      requires Valid() && m < |messages| && Pc() == ReadRetries(m)
      modifies this`retries, this`failures, this`state, this`events
      ensures Valid() && Pc() == ClearRetries(m, response)
      ensures response == Answer(max, messages[m], old(At(retries, messages[m].commandId)), handler)
      ensures old(At(retries, messages[m].commandId)) >= max ==> retries == old(retries)
    {
      var persistedAttempts := At(retries, messages[m].commandId);
      if persistedAttempts >= max {
        Observe(Proceed, DeadLetterAgain(m, persistedAttempts));
        Observe(Proceed, ClearRetries(m, DeadLettered(persistedAttempts)));
        response := DeadLettered(persistedAttempts);
      } else {
        Observe(Proceed, Attempt(m));
        response := AttemptUntilSettled(m, handler);
      }
    }
  }
}
