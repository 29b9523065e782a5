/** The leases that give a stream partition one consumer: taken one by one with
    `SET NX EX`, rolled back when one is refused, renewed by comparison and freed
    by comparison. Any lease may expire at any moment. */
module PartitionLeases {
  import opened Collections

  datatype Phase =
    | Acquiring(taken: nat)
    | RollingBack(taken: nat, freed: nat)
    | Refused
    | Running
    | Lost
    | Releasing(freed: nat)
    | Stopped

  datatype Worker = Worker(partitions: seq<nat>, phase: Phase)

  /** `expired` records whose lease on which partition has ever expired. */
  datatype State = State(leases: map<nat, nat>, workers: seq<Worker>, expired: set<(nat, nat)>)

  /** `Act` is the next effect of a worker that starts or stops; `Renew` one renewal
      of the timer. */
  datatype Action = Start(partitions: seq<nat>) | Act(worker: nat) | Renew(worker: nat, index: nat) | Stop(worker: nat) | Expire(partition: nat)

  predicate Owns(s: State, w: nat, p: nat) {
    p in s.leases && s.leases[p] == w
  }

  function To(s: State, w: nat, phase: Phase): State
    requires w < |s.workers|
  {
    s.(workers := s.workers[w := s.workers[w].(phase := phase)])
  }

  function Effect(s: State, w: nat): Option<State>
    requires w < |s.workers|
  {
    var worker := s.workers[w];
    match worker.phase
    case Acquiring(taken) =>
      if taken >= |worker.partitions| then Some(To(s, w, Running))
      else
        var p := worker.partitions[taken];
        if p in s.leases then Some(To(s, w, RollingBack(taken, 0)))
        else Some(To(s.(leases := s.leases[p := w]), w, Acquiring(taken + 1)))
    case RollingBack(taken, freed) =>
      if freed >= taken || freed >= |worker.partitions| then Some(To(s, w, Refused))
      else Some(To(s.(leases := s.leases - {worker.partitions[freed]}), w, RollingBack(taken, freed + 1)))
    case Releasing(freed) =>
      if freed >= |worker.partitions| then Some(To(s, w, Stopped))
      else
        var p := worker.partitions[freed];
        Some(To(s.(leases := if Owns(s, w, p) then s.leases - {p} else s.leases), w, Releasing(freed + 1)))
    case _ => None
  }

  function Next(s: State, a: Action): Option<State> {
    match a
    case Start(partitions) => Some(s.(workers := s.workers + [Worker(partitions, Acquiring(0))]))
    case Act(w) => if w < |s.workers| then Effect(s, w) else None
    case Renew(w, i) =>
      if w < |s.workers| && s.workers[w].phase.Running? && i < |s.workers[w].partitions| then
        Some(if Owns(s, w, s.workers[w].partitions[i]) then s else To(s, w, Lost))
      else None
    case Stop(w) =>
      if w < |s.workers| && (s.workers[w].phase.Running? || s.workers[w].phase.Lost?) then Some(To(s, w, Releasing(0))) else None
    case Expire(p) =>
      if p in s.leases then Some(s.(leases := s.leases - {p}, expired := s.expired + {(s.leases[p], p)})) else None
  }

  const INITIAL: State := State(map[], [], {})

  /** Still taking its leases, or giving them back. */
  predicate Starting(s: State, w: nat) {
    w < |s.workers| && (s.workers[w].phase.Acquiring? || s.workers[w].phase.RollingBack?)
  }

  /** No lease expires while its worker is still starting. */
  predicate Timely(s: State, a: Action) {
    a.Expire? && a.partition in s.leases ==> !Starting(s, s.leases[a.partition])
  }

  function Run(s: State, actions: seq<Action>): Option<State>
    decreases |actions|
  {
    if actions == [] then Some(s)
    else
      var next := Next(s, actions[0]);
      if next.None? then None else Run(next.value, actions[1..])
  }

  predicate AllTimely(s: State, actions: seq<Action>)
    decreases |actions|
  {
    actions == [] || (Timely(s, actions[0]) && (Next(s, actions[0]).Some? ==> AllTimely(Next(s, actions[0]).value, actions[1..])))
  }

  // The invariant ----------------------------------------------------------------------

  ghost predicate OwnsRange(s: State, w: nat, from: nat, to: nat)
    requires w < |s.workers|
  {
    && to <= |s.workers[w].partitions|
    && (forall i :: from <= i < to ==> Owns(s, w, s.workers[w].partitions[i]))
    && (forall i, j :: 0 <= i < j < to ==> s.workers[w].partitions[i] != s.workers[w].partitions[j])
  }

  ghost predicate WorkerOk(s: State, w: nat)
    requires w < |s.workers|
  {
    match s.workers[w].phase
    case Acquiring(taken) => OwnsRange(s, w, 0, taken)
    case RollingBack(taken, freed) => freed <= taken && OwnsRange(s, w, freed, taken)
    case Running =>
      forall i :: 0 <= i < |s.workers[w].partitions| ==>
        Owns(s, w, s.workers[w].partitions[i]) || (w, s.workers[w].partitions[i]) in s.expired
    case _ => true
  }

  ghost predicate Inv(s: State) {
    && (forall w :: 0 <= w < |s.workers| ==> WorkerOk(s, w))
    && (forall p :: p in s.leases ==> s.leases[p] < |s.workers|)
  }

  /** A step takes a lease from another worker only by expiry, which is recorded. */
  ghost predicate OthersKeep(s: State, t: State, mover: nat) {
    && |s.workers| <= |t.workers| && s.expired <= t.expired
    && (forall v :: 0 <= v < |s.workers| && v != mover ==> t.workers[v] == s.workers[v])
    && (forall v: nat, p: nat :: v != mover && Owns(s, v, p) ==> Owns(t, v, p) || ((v, p) in t.expired && !Starting(s, v)))
  }

  lemma OtherStaysOk(s: State, t: State, mover: nat, v: nat)
    requires v < |s.workers| && v != mover && WorkerOk(s, v) && OthersKeep(s, t, mover)
    ensures WorkerOk(t, v)
  {
    assert t.workers[v] == s.workers[v];
  }

  lemma EffectKeepsOthers(s: State, w: nat)
    requires Inv(s) && w < |s.workers| && Effect(s, w).Some?
    ensures OthersKeep(s, Effect(s, w).value, w)
  {
    assert WorkerOk(s, w);
  }

  lemma EffectKeepsOwn(s: State, w: nat)
    requires Inv(s) && w < |s.workers| && Effect(s, w).Some?
    ensures WorkerOk(Effect(s, w).value, w)
  {
    assert WorkerOk(s, w);
  }

  lemma NextKeepsInv(s: State, a: Action)
    requires Inv(s) && Timely(s, a) && Next(s, a).Some?
    ensures Inv(Next(s, a).value)
  {
    var t := Next(s, a).value;
    var mover := if a.Act? || a.Renew? || a.Stop? then a.worker else |s.workers|;
    if a.Act? {
      EffectKeepsOthers(s, mover);
      EffectKeepsOwn(s, mover);
    }
    forall v | 0 <= v < |t.workers|
      ensures WorkerOk(t, v)
    {
      if v < |s.workers| && v != mover {
        OtherStaysOk(s, t, mover, v);
      } else if v < |s.workers| {
        assert WorkerOk(s, v);
      }
    }
  }

  lemma {:induction false} RunKeepsInv(s: State, actions: seq<Action>)
    requires Inv(s) && AllTimely(s, actions) && Run(s, actions).Some?
    ensures Inv(Run(s, actions).value)
    decreases |actions|
  {
    if actions != [] {
      NextKeepsInv(s, actions[0]);
      RunKeepsInv(Next(s, actions[0]).value, actions[1..]);
    }
  }

  // Guarantees -----------------------------------------------------------------------------

  predicate Consumes(s: State, w: nat, p: nat) {
    w < |s.workers| && s.workers[w].phase.Running? && p in s.workers[w].partitions
  }

  /** As long as no lease expires under a starting worker, two workers consume one
      partition only after the lease of one of them on it has expired. */
  lemma OneConsumerUnlessExpired(actions: seq<Action>, v: nat, w: nat, p: nat)
    requires AllTimely(INITIAL, actions) && Run(INITIAL, actions).Some? && v != w
    ensures var s := Run(INITIAL, actions).value;
      Consumes(s, v, p) && Consumes(s, w, p) ==> (v, p) in s.expired || (w, p) in s.expired
  {
    RunKeepsInv(INITIAL, actions);
    var s := Run(INITIAL, actions).value;
    if Consumes(s, v, p) && Consumes(s, w, p) {
      assert WorkerOk(s, v) && WorkerOk(s, w);
    }
  }

  lemma {:induction false} RunExtends(s: State, actions: seq<Action>, a: Action)
    requires Run(s, actions).Some?
    ensures Run(s, actions + [a]) == Next(Run(s, actions).value, a)
    decreases |actions|
  {
    if actions == [] {
      assert actions + [a] == [a];
      assert Next(s, a).Some? ==> Run(Next(s, a).value, [a][1..]) == Next(s, a);
    } else {
      RunExtends(Next(s, actions[0]).value, actions[1..], a);
      assert (actions + [a])[1..] == actions[1..] + [a];
    }
  }

  lemma Do(actions: seq<Action>, s: State, a: Action) returns (more: seq<Action>, t: State)
    requires Run(INITIAL, actions) == Some(s) && Next(s, a).Some?
    ensures Some(t) == Next(s, a) == Run(INITIAL, more)
  {
    RunExtends(INITIAL, actions, a);
    more, t := actions + [a], Next(s, a).value;
  }

  const OVERTAKEN: State :=
    State(map[0 := 1, 1 := 1], [Worker([0, 1], Acquiring(1)), Worker([0, 1], Running)], {(0, 0)})

  lemma OvertakenIsReached() returns (actions: seq<Action>)
    ensures Run(INITIAL, actions) == Some(OVERTAKEN)
  {
    var s;
    actions, s := Do([], INITIAL, Start([0, 1]));
    actions, s := Do(actions, s, Act(0));
    actions, s := Do(actions, s, Expire(0));
    assert s == State(map[], [Worker([0, 1], Acquiring(1))], {(0, 0)});
    actions, s := Do(actions, s, Start([0, 1]));
    actions, s := Do(actions, s, Act(1));
    actions, s := Do(actions, s, Act(1));
    actions, s := Do(actions, s, Act(1));
    assert s == OVERTAKEN;
  }

  const ROLLED_BACK: State :=
    State(map[1 := 1], [Worker([0, 1], RollingBack(1, 1)), Worker([0, 1], Running)], {(0, 0)})

  lemma RolledBackIsReached() returns (actions: seq<Action>)
    ensures Run(INITIAL, actions) == Some(ROLLED_BACK)
  {
    var s := OVERTAKEN;
    actions := OvertakenIsReached();
    actions, s := Do(actions, s, Act(0));
    actions, s := Do(actions, s, Act(0));
    assert s == ROLLED_BACK;
  }

  /** The condition is needed, because the rollback of a refused start deletes
      without comparing: an expiry under the starting worker 0 makes it free the
      lease of worker 1, and workers 1 and 2 consume partition 0 together although
      no lease of theirs has ever expired. */
  lemma RollbackCanAdmitTwoConsumers() returns (actions: seq<Action>)
    ensures Run(INITIAL, actions).Some?
    ensures var s := Run(INITIAL, actions).value;
      Consumes(s, 1, 0) && Consumes(s, 2, 0) && forall p :: (1, p) !in s.expired && (2, p) !in s.expired
  {
    var s := ROLLED_BACK;
    actions := RolledBackIsReached();
    actions, s := Do(actions, s, Start([0]));
    actions, s := Do(actions, s, Act(2));
    actions, s := Do(actions, s, Act(2));
  }

  // The exact condition on the assignments --------------------------------------------------

  /** Every worker is started with one of these lists. */
  predicate Assigned(lists: set<seq<nat>>, actions: seq<Action>) {
    forall i :: 0 <= i < |actions| && actions[i].Start? ==> actions[i].partitions in lists
  }

  ghost predicate Shares(s: State, v: nat, w: nat, p: nat) {
    v != w && Consumes(s, v, p) && Consumes(s, w, p) && (v, p) !in s.expired && (w, p) !in s.expired
  }

  /** No two workers consume one partition, unless a lease of one on it has expired. */
  ghost predicate Exclusive(s: State) {
    forall v, w, p :: !Shares(s, v, w, p)
  }

  /** With one partition per worker a refused start has nothing to roll back. */
  ghost predicate ShortOk(s: State, w: nat)
    requires w < |s.workers|
  {
    var worker := s.workers[w];
    && |worker.partitions| <= 1
    && (worker.phase.RollingBack? ==> worker.phase.taken == 0)
    && (worker.phase.Acquiring? ==> worker.phase.taken <= |worker.partitions|)
    && (worker.phase.Running? || (worker.phase.Acquiring? && worker.phase.taken == 1) ==>
      forall p :: p in worker.partitions ==> Owns(s, w, p) || (w, p) in s.expired)
  }

  ghost predicate AllShort(s: State) {
    forall w :: 0 <= w < |s.workers| ==> ShortOk(s, w)
  }

  /** Leases of others end by expiry only. */
  ghost predicate LeasesStay(s: State, t: State, mover: nat) {
    && |s.workers| <= |t.workers| && s.expired <= t.expired
    && (forall v :: 0 <= v < |s.workers| && v != mover ==> t.workers[v] == s.workers[v])
    && (forall v: nat, p: nat :: v != mover && Owns(s, v, p) ==> Owns(t, v, p) || (v, p) in t.expired)
  }

  lemma ShortEffect(s: State, w: nat)
    requires AllShort(s) && w < |s.workers| && Effect(s, w).Some?
    ensures LeasesStay(s, Effect(s, w).value, w) && ShortOk(Effect(s, w).value, w)
  {
    assert ShortOk(s, w);
  }

  lemma ShortNext(s: State, a: Action)
    requires AllShort(s) && Next(s, a).Some? && (a.Start? ==> |a.partitions| <= 1)
    ensures AllShort(Next(s, a).value)
  {
    var t := Next(s, a).value;
    var mover := if a.Act? || a.Renew? || a.Stop? then a.worker else |s.workers|;
    if a.Act? {
      ShortEffect(s, mover);
    }
    assert LeasesStay(s, t, mover);
    forall v | 0 <= v < |t.workers|
      ensures ShortOk(t, v)
    {
      if v < |s.workers| {
        assert ShortOk(s, v);
      }
    }
  }

  lemma {:induction false} ShortRun(lists: set<seq<nat>>, s: State, actions: seq<Action>)
    requires forall l :: l in lists ==> |l| <= 1
    requires AllShort(s) && Assigned(lists, actions) && Run(s, actions).Some?
    ensures AllShort(Run(s, actions).value)
    decreases |actions|
  {
    if actions != [] {
      assert forall i :: 0 <= i < |actions[1..]| ==> actions[1..][i] == actions[i + 1];
      ShortNext(s, actions[0]);
      ShortRun(lists, Next(s, actions[0]).value, actions[1..]);
    }
  }

  lemma ShortIsExclusive(s: State)
    requires AllShort(s)
    ensures Exclusive(s)
  {
    forall v: nat, w: nat, p: nat
      ensures !Shares(s, v, w, p)
    {
      if v < |s.workers| && w < |s.workers| {
        assert ShortOk(s, v) && ShortOk(s, w);
      }
    }
  }

  // A list of two or more -----------------------------------------------------------------

  /** A run over one list that has led to `s`. */
  ghost predicate Leads(list: seq<nat>, actions: seq<Action>, s: State) {
    Assigned({list}, actions) && Run(INITIAL, actions) == Some(s)
  }

  lemma Lead(list: seq<nat>, actions: seq<Action>, s: State, a: Action) returns (more: seq<Action>, t: State)
    requires Leads(list, actions, s) && Next(s, a).Some? && (a.Start? ==> a.partitions == list)
    ensures Leads(list, more, t) && Some(t) == Next(s, a)
  {
    RunExtends(INITIAL, actions, a);
    more, t := actions + [a], Next(s, a).value;
  }

  /** Worker `w` holds the first `n` partitions of the list and nobody the others. */
  ghost predicate Holds(list: seq<nat>, s: State, w: nat, n: nat) {
    && n <= |list|
    && (forall i :: 0 <= i < n ==> Owns(s, w, list[i]))
    && (forall i :: n <= i < |list| ==> list[i] !in s.leases)
  }

  /** With the whole list free, a new worker acquires it and runs. */
  lemma StartAndAcquire(list: seq<nat>, before: seq<Action>, s: State) returns (actions: seq<Action>, t: State)
    requires Distinct(list) && Leads(list, before, s) && forall i :: 0 <= i < |list| ==> list[i] !in s.leases
    ensures Leads(list, actions, t) && t.workers == s.workers + [Worker(list, Running)] && t.expired == s.expired
    ensures Holds(list, t, |s.workers|, |list|)
  {
    var w := |s.workers|;
    actions, t := Lead(list, before, s, Start(list));
    for n := 0 to |list|
      invariant Leads(list, actions, t) && t.expired == s.expired
      invariant t.workers == s.workers + [Worker(list, Acquiring(n))] && Holds(list, t, w, n)
    {
      actions, t := Lead(list, actions, t, Act(w));
    }
    actions, t := Lead(list, actions, t, Act(w));
  }

  /** The leases of worker `w` on all but the first partition expire. */
  lemma ExpireRest(list: seq<nat>, before: seq<Action>, s: State, w: nat) returns (actions: seq<Action>, t: State)
    requires Distinct(list) && list != [] && Leads(list, before, s)
    requires list[0] !in s.leases && forall i :: 1 <= i < |list| ==> Owns(s, w, list[i])
    ensures Leads(list, actions, t) && t.workers == s.workers
    ensures forall i :: 0 <= i < |list| ==> list[i] !in t.leases
    ensures forall v, p :: (v, p) in t.expired ==> (v, p) in s.expired || (v == w && p != list[0])
  {
    actions, t := before, s;
    for n := 1 to |list|
      invariant Leads(list, actions, t) && t.workers == s.workers
      invariant forall i :: 0 <= i < n ==> list[i] !in t.leases
      invariant forall i :: n <= i < |list| ==> Owns(t, w, list[i])
      invariant forall v, p :: (v, p) in t.expired ==> (v, p) in s.expired || (v == w && p != list[0])
    {
      actions, t := Lead(list, actions, t, Expire(list[n]));
    }
  }

  /** Worker 0 loses its first lease while it starts, worker 1 takes the whole list,
      and the rollback of worker 0 frees the first lease of worker 1. */
  lemma RollbackFreesFirst(list: seq<nat>) returns (actions: seq<Action>, t: State)
    requires Distinct(list) && |list| >= 2
    ensures Leads(list, actions, t) && |t.workers| == 2 && t.workers[1] == Worker(list, Running)
    ensures t.expired == {(0, list[0])}
    ensures list[0] !in t.leases && forall i :: 1 <= i < |list| ==> Owns(t, 1, list[i])
  {
    actions, t := Lead(list, [], INITIAL, Start(list));
    actions, t := Lead(list, actions, t, Act(0));
    actions, t := Lead(list, actions, t, Expire(list[0]));
    assert t == State(map[], [Worker(list, Acquiring(1))], {(0, list[0])});
    actions, t := StartAndAcquire(list, actions, t);
    assert t.workers == [Worker(list, Acquiring(1)), Worker(list, Running)];
    assert Owns(t, 1, list[1]);
    actions, t := Lead(list, actions, t, Act(0));
    actions, t := Lead(list, actions, t, Act(0));
  }

  /** For any list of two or more partitions, assigned to every worker, some run lets
      two workers consume its first partition though no lease of theirs on it expired. */
  lemma LongListIsShared(list: seq<nat>) returns (actions: seq<Action>, t: State)
    requires Distinct(list) && |list| >= 2
    ensures Leads(list, actions, t) && Shares(t, 1, 2, list[0])
  {
    actions, t := RollbackFreesFirst(list);
    actions, t := ExpireRest(list, actions, t, 1);
    actions, t := StartAndAcquire(list, actions, t);
    assert t.workers[1] == Worker(list, Running) && t.workers[2] == Worker(list, Running);
    assert list[0] in list;
  }

  /** Consumption is exclusive in every run, with leases expiring at any moment, if
      and only if no worker is assigned more than one partition. */
  lemma ExclusiveIffAllShort(lists: set<seq<nat>>)
    requires forall l :: l in lists ==> Distinct(l)
    ensures (forall l :: l in lists ==> |l| <= 1) <==>
      forall actions :: Assigned(lists, actions) && Run(INITIAL, actions).Some? ==> Exclusive(Run(INITIAL, actions).value)
  {
    if forall l :: l in lists ==> |l| <= 1 {
      forall actions | Assigned(lists, actions) && Run(INITIAL, actions).Some?
        ensures Exclusive(Run(INITIAL, actions).value)
      {
        ShortRun(lists, INITIAL, actions);
        ShortIsExclusive(Run(INITIAL, actions).value);
      }
    } else {
      var l :| l in lists && |l| > 1;
      var actions, t := LongListIsShared(l);
      assert Assigned(lists, actions);
      assert !Exclusive(t);
    }
  }

  // Losing a lease ---------------------------------------------------------------------

  /** Worker `w` consumes no more, or still does without a lease on `p`. */
  predicate WithoutLease(s: State, w: nat, p: nat) {
    && w < |s.workers|
    && match s.workers[w].phase
       case Running => p in s.workers[w].partitions && !Owns(s, w, p)
       case Lost => true
       case Releasing(_) => true
       case Stopped => true
       case _ => false
  }

  lemma NextKeepsWithoutLease(s: State, a: Action, w: nat, p: nat)
    requires WithoutLease(s, w, p) && Next(s, a).Some?
    ensures WithoutLease(Next(s, a).value, w, p)
    ensures Consumes(Next(s, a).value, w, p) ==> Consumes(s, w, p) && Next(s, a).value.workers[w] == s.workers[w]
  {
  }

  lemma {:induction false} LostLeaseStaysLost(s: State, actions: seq<Action>, w: nat, p: nat)
    requires WithoutLease(s, w, p) && Run(s, actions).Some?
    ensures WithoutLease(Run(s, actions).value, w, p)
    ensures Consumes(Run(s, actions).value, w, p) ==> Consumes(s, w, p)
    decreases |actions|
  {
    if actions != [] {
      NextKeepsWithoutLease(s, actions[0], w, p);
      LostLeaseStaysLost(Next(s, actions[0]).value, actions[1..], w, p);
    }
  }

  /** A worker never gets a lost lease back: whatever happens, it consumes the partition
      no more once it has tried to renew the lease. */
  lemma {:induction false} LostLeaseEndsAtRenewal(s: State, actions: seq<Action>, w: nat, i: nat, k: nat)
    requires w < |s.workers| && i < |s.workers[w].partitions| && WithoutLease(s, w, s.workers[w].partitions[i])
    requires Run(s, actions).Some? && k < |actions| && actions[k] == Renew(w, i)
    ensures !Consumes(Run(s, actions).value, w, s.workers[w].partitions[i])
    decreases |actions|
  {
    var p, t := s.workers[w].partitions[i], Next(s, actions[0]).value;
    NextKeepsWithoutLease(s, actions[0], w, p);
    if k == 0 || !Consumes(t, w, p) {
      LostLeaseStaysLost(t, actions[1..], w, p);
    } else {
      LostLeaseEndsAtRenewal(t, actions[1..], w, i, k - 1);
    }
  }

  /** Who gives up has lost a lease. */
  ghost predicate LostOk(s: State, w: nat)
    requires w < |s.workers|
  {
    s.workers[w].phase.Lost? ==> exists p :: p in s.workers[w].partitions && (w, p) in s.expired
  }

  lemma NextKeepsLostOk(s: State, a: Action, w: nat)
    requires Inv(s) && Next(s, a).Some? && w < |Next(s, a).value.workers| && (w < |s.workers| ==> LostOk(s, w))
    ensures LostOk(Next(s, a).value, w)
  {
    if w < |s.workers| {
      assert WorkerOk(s, w);
      if a.Renew? && a.worker == w {
        assert s.workers[w].partitions[a.index] in s.workers[w].partitions;
      }
    }
  }

  lemma {:induction false} RunKeepsLostOk(s: State, actions: seq<Action>, w: nat)
    requires Inv(s) && AllTimely(s, actions) && Run(s, actions).Some? && w < |Run(s, actions).value.workers|
    requires w < |s.workers| ==> LostOk(s, w)
    ensures LostOk(Run(s, actions).value, w)
    decreases |actions|
  {
    if actions != [] {
      NextKeepsInv(s, actions[0]);
      if w < |Next(s, actions[0]).value.workers| {
        NextKeepsLostOk(s, actions[0], w);
      }
      RunKeepsLostOk(Next(s, actions[0]).value, actions[1..], w);
    }
  }

  /** As long as no lease expires under a starting worker, a worker gives up only after
      a lease of its own has expired. */
  lemma GivesUpOnlyAfterExpiry(actions: seq<Action>, w: nat)
    requires AllTimely(INITIAL, actions) && Run(INITIAL, actions).Some?
    ensures var s := Run(INITIAL, actions).value;
      w < |s.workers| && s.workers[w].phase.Lost? ==> exists p :: p in s.workers[w].partitions && (w, p) in s.expired
  {
    var s := Run(INITIAL, actions).value;
    if w < |s.workers| {
      RunKeepsLostOk(INITIAL, actions, w);
      assert LostOk(s, w);
    }
  }

  // Stopping ---------------------------------------------------------------------------

  function Acts(w: nat, n: nat): seq<Action> {
    if n == 0 then [] else [Act(w)] + Acts(w, n - 1)
  }

  /** The leases that remain when a worker gives back those it still owns from
      position `from` of its list on. */
  ghost predicate GivesBack(s: State, t: State, w: nat, list: seq<nat>, from: nat)
    requires from <= |list|
  {
    forall p ::
      && (p in t.leases <==> p in s.leases && !(s.leases[p] == w && p in list[from..]))
      && (p in t.leases ==> t.leases[p] == s.leases[p])
  }

  lemma {:induction false} ReleaseRuns(s: State, w: nat, freed: nat)
    requires w < |s.workers| && s.workers[w].phase == Releasing(freed) && freed <= |s.workers[w].partitions|
    ensures var list := s.workers[w].partitions;
      && Run(s, Acts(w, |list| - freed + 1)).Some?
      && var t := Run(s, Acts(w, |list| - freed + 1)).value;
         && t.workers == s.workers[w := Worker(list, Stopped)]
         && GivesBack(s, t, w, list, freed)
    decreases |s.workers[w].partitions| - freed
  {
    var list := s.workers[w].partitions;
    var acts := Acts(w, |list| - freed + 1);
    var next := Next(s, acts[0]).value;
    assert acts[1..] == Acts(w, |list| - freed);
    if freed < |list| {
      ReleaseRuns(next, w, freed + 1);
      assert list[freed..] == [list[freed]] + list[freed + 1..];
    } else {
      assert Run(next, acts[1..]) == Some(next);
      assert list[freed..] == [];
    }
  }

  /** A worker that stops undisturbed gives back every lease it still owns, and no
      other lease changes. */
  lemma StoppingGivesBack(s: State, w: nat)
    requires w < |s.workers| && (s.workers[w].phase.Running? || s.workers[w].phase.Lost?)
    ensures var (list, acts) := (s.workers[w].partitions, [Stop(w)] + Acts(w, |s.workers[w].partitions| + 1));
      && Run(s, acts).Some?
      && Run(s, acts).value.workers == s.workers[w := Worker(list, Stopped)]
      && GivesBack(s, Run(s, acts).value, w, list, 0)
  {
    var list := s.workers[w].partitions;
    var acts := [Stop(w)] + Acts(w, |list| + 1);
    assert acts[1..] == Acts(w, |list| + 1);
    ReleaseRuns(Next(s, acts[0]).value, w, 0);
  }
}
