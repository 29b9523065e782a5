/** What the fault machine guarantees over every request history of a session. */
module FaultGuarantees {
  import opened Collections
  import opened ScenarioGraph
  import opened FaultMachine

  // The schedule of a session ----------------------------------------------------

  /** Distinct faults, and at most one per request class and occurrence. */
  ghost predicate ScheduleOk(faults: seq<Fault>) {
    forall i, j :: 0 <= i < j < |faults| ==>
      && faults[i].id != faults[j].id
      && (ClassOf(faults[i].action) != ClassOf(faults[j].action) || faults[i].occurrence != faults[j].occurrence)
  }

  function OfTask(g: Graph, taskSlug: string): Fault -> bool {
    (f: Fault) => exists i :: 0 <= i < |g.nodes| && g.nodes[i].taskSlug == taskSlug && g.nodes[i].id == f.nodeId
  }

  /** `buildSessionScenarioFaultSchedule`: the faults on the task's nodes. */
  function SessionSchedule(g: Graph, taskSlug: string): seq<Fault> {
    Filter(OfTask(g, taskSlug), g.faultSchedule)
  }

  lemma {:induction false} FilterKeepsSchedule(p: Fault -> bool, faults: seq<Fault>, kept: seq<Fault>)
    requires kept == Filter(p, faults)
    requires forall i, j :: 0 <= i < j < |faults| && p(faults[i]) && p(faults[j]) ==>
      && faults[i].id != faults[j].id
      && (ClassOf(faults[i].action) != ClassOf(faults[j].action) || faults[i].occurrence != faults[j].occurrence)
    ensures ScheduleOk(kept)
  {
    if faults != [] {
      var rest := Filter(p, faults[1..]);
      FilterKeepsSchedule(p, faults[1..], rest);
      FilterMembers(p, faults[1..]);
      if p(faults[0]) {
        assert kept == [faults[0]] + rest;
        forall j | 0 <= j < |rest|
          ensures faults[0].id != rest[j].id
          ensures ClassOf(faults[0].action) != ClassOf(rest[j].action) || faults[0].occurrence != rest[j].occurrence
        {
          assert rest[j] in rest;
          var k :| 0 <= k < |faults[1..]| && faults[1..][k] == rest[j];
          assert faults[k + 1] == rest[j];
        }
      } else {
        assert kept == rest;
      }
    }
  }

  /** Every session schedule cut out of an accepted graph is well formed. */
  lemma SessionScheduleOk(g: Graph, taskSlug: string)
    requires Accepted(g)
    ensures ScheduleOk(SessionSchedule(g, taskSlug))
  {
    var p, faults := OfTask(g, taskSlug), g.faultSchedule;
    assert !Holds(g, DuplicateFaultIds) && !Holds(g, DuplicateTrigger) && !Holds(g, DuplicateNodeIds);
    forall i, j | 0 <= i < j < |faults| && p(faults[i]) && p(faults[j])
      ensures faults[i].id != faults[j].id
      ensures ClassOf(faults[i].action) != ClassOf(faults[j].action) || faults[i].occurrence != faults[j].occurrence
    {
      assert FaultIds(g)[i] == faults[i].id && FaultIds(g)[j] == faults[j].id;
      TaskOfFault(g, taskSlug, faults[i]);
      TaskOfFault(g, taskSlug, faults[j]);
      assert !SameTrigger(g, faults[i], faults[j]);
    }
    FilterKeepsSchedule(p, faults, SessionSchedule(g, taskSlug));
  }

  lemma TaskOfFault(g: Graph, taskSlug: string, f: Fault)
    requires !Holds(g, DuplicateNodeIds) && OfTask(g, taskSlug)(f)
    ensures TriggerTask(g, f) == taskSlug
  {
    var i :| 0 <= i < |g.nodes| && g.nodes[i].taskSlug == taskSlug && g.nodes[i].id == f.nodeId;
    var node := NodeById(g.nodes, f.nodeId).value;
    var j :| 0 <= j < |g.nodes| && g.nodes[j] == node;
    assert NodeIds(g)[i] == NodeIds(g)[j];
  }

  // Request histories --------------------------------------------------------------

  /** The action lists the server sends: one for POST, one for everything else. */
  function ActionsOf(r: RequestClass): set<FaultAction> {
    match r
    case MutationRequest => {Mutation}
    case ReadRequest => {Navigation, Read}
  }

  function StateAfter(faults: seq<Fault>, rs: seq<RequestClass>): FaultState {
    if rs == [] then EMPTY_STATE
    else Observe(faults, StateAfter(faults, rs[..|rs| - 1]), ActionsOf(rs[|rs| - 1])).0
  }

  function ObservedAt(faults: seq<Fault>, rs: seq<RequestClass>, i: nat): Observation
    requires i < |rs|
  {
    Observe(faults, StateAfter(faults, rs[..i]), ActionsOf(rs[i])).1
  }

  function ClassCount(rs: seq<RequestClass>, c: RequestClass): nat {
    if rs == [] then 0
    else ClassCount(rs[..|rs| - 1], c) + (if rs[|rs| - 1] == c then 1 else 0)
  }

  /** Request `i` is the one at which the counter of `f` reaches its trigger. */
  ghost predicate Due(f: Fault, rs: seq<RequestClass>, i: nat) {
    i < |rs| && rs[i] == ClassOf(f.action) && ClassCount(rs[..i + 1], rs[i]) == f.occurrence
  }

  lemma ActionBelongsToClass(a: FaultAction, r: RequestClass)
    ensures a in ActionsOf(r) <==> ClassOf(a) == r
  {
  }

  lemma PrefixStep(rs: seq<RequestClass>, i: nat)
    requires i < |rs|
    ensures rs[..i + 1][..i] == rs[..i] && rs[..i + 1][i] == rs[i]
  {
  }

  /** The state after requests with any action lists. */
  function StateOver(faults: seq<Fault>, requests: seq<set<FaultAction>>): FaultState {
    if requests == [] then EMPTY_STATE
    else Observe(faults, StateOver(faults, requests[..|requests| - 1]), requests[|requests| - 1]).0
  }

  ghost function Carrying(requests: seq<set<FaultAction>>, a: FaultAction): set<nat> {
    set i: nat | i < |requests| && a in requests[i]
  }

  lemma RequestCounts(faults: seq<Fault>, s: FaultState, actions: set<FaultAction>, a: FaultAction)
    requires faults != []
    ensures Count(Observe(faults, s, actions).0, a) == Count(s, a) + if a in actions then 1 else 0
  {
  }

  lemma CarryingStep(requests: seq<set<FaultAction>>, a: FaultAction)
    requires requests != []
    ensures var n := |requests| - 1;
      |Carrying(requests, a)| == |Carrying(requests[..n], a)| + if a in requests[n] then 1 else 0
  {
    var n := |requests| - 1;
    assert Carrying(requests, a) == Carrying(requests[..n], a) + if a in requests[n] then {n} else {};
  }

  /** Whatever is injected and recovered on the way, every counter is the number of
      requests that carried its action. */
  lemma {:induction false} CounterCountsItsAction(faults: seq<Fault>, requests: seq<set<FaultAction>>, a: FaultAction)
    requires faults != []
    ensures Count(StateOver(faults, requests), a) == |Carrying(requests, a)|
  {
    if requests == [] {
      assert Carrying(requests, a) == {};
    } else {
      var n := |requests| - 1;
      CounterCountsItsAction(faults, requests[..n], a);
      RequestCounts(faults, StateOver(faults, requests[..n]), requests[n], a);
      CarryingStep(requests, a);
    }
  }

  /** Counters: navigations equal reads, and each counts its request class. */
  lemma {:induction false} CountersAgree(faults: seq<Fault>, rs: seq<RequestClass>)
    requires faults != []
    ensures var s := StateAfter(faults, rs);
      s.readCount == s.navigationCount == ClassCount(rs, ReadRequest) && s.mutationCount == ClassCount(rs, MutationRequest)
  {
    if rs != [] {
      CountersAgree(faults, rs[..|rs| - 1]);
    }
  }

  lemma {:induction false} CountGrows(rs: seq<RequestClass>, c: RequestClass, i: nat, j: nat)
    requires i <= j <= |rs|
    ensures ClassCount(rs[..i], c) <= ClassCount(rs[..j], c)
  {
    if i < j {
      CountGrows(rs, c, i, j - 1);
      PrefixStep(rs, j - 1);
    }
  }

  /** A fault is due at most once, and at most one fault is due per request. */
  lemma DueIsUnique(faults: seq<Fault>, f: Fault, h: Fault, rs: seq<RequestClass>, i: nat, j: nat)
    requires ScheduleOk(faults) && f in faults && h in faults
    ensures Due(f, rs, i) && Due(f, rs, j) ==> i == j
    ensures Due(f, rs, i) && Due(h, rs, i) ==> f == h
  {
    if Due(f, rs, i) && Due(f, rs, j) && i < j {
      CountGrows(rs, rs[i], i + 1, j);
      PrefixStep(rs, j);
    }
    if Due(f, rs, i) && Due(f, rs, j) && j < i {
      CountGrows(rs, rs[i], j + 1, i);
      PrefixStep(rs, i);
    }
  }

  // The invariant --------------------------------------------------------------------

  ghost predicate RequiredFault(faults: seq<Fault>, id: string) {
    exists f :: f in faults && f.id == id && f.requiredRecovery
  }

  ghost predicate WasDue(faults: seq<Fault>, rs: seq<RequestClass>, id: string) {
    exists f, k: nat :: f in faults && f.id == id && Due(f, rs, k)
  }

  /** Applied once each and only when due; recovered only what was applied; the
      applied faults that need recovery are the recovered ones and the pending one. */
  ghost predicate Sound(faults: seq<Fault>, rs: seq<RequestClass>, s: FaultState) {
    && Distinct(s.applied) && Distinct(s.recovered)
    && (forall id :: id in s.applied ==> WasDue(faults, rs, id))
    && (s.pending.Some? ==> s.pending.value !in s.recovered)
    && (forall id :: (id in s.applied && RequiredFault(faults, id)) <==> (id in s.recovered || s.pending == Some(id)))
  }

  lemma WasDueExtends(faults: seq<Fault>, rs: seq<RequestClass>, r: RequestClass, id: string)
    requires WasDue(faults, rs, id)
    ensures WasDue(faults, rs + [r], id)
  {
    var f, k: nat :| f in faults && f.id == id && Due(f, rs, k);
    assert (rs + [r])[..k + 1] == rs[..k + 1];
    assert Due(f, rs + [r], k);
  }

  lemma UniqueById(faults: seq<Fault>, f: Fault, h: Fault)
    requires ScheduleOk(faults) && f in faults && h in faults && f.id == h.id
    ensures f == h
  {
  }

  /** A fault that comes due has not been applied before. */
  lemma DueIsNew(faults: seq<Fault>, rs: seq<RequestClass>, r: RequestClass, f: Fault, s: FaultState)
    requires ScheduleOk(faults) && f in faults && Sound(faults, rs, s) && Due(f, rs + [r], |rs|)
    ensures f.id !in s.applied
  {
    if f.id in s.applied {
      var h, k: nat :| h in faults && h.id == f.id && Due(h, rs, k);
      UniqueById(faults, f, h);
      assert (rs + [r])[..k + 1] == rs[..k + 1];
      assert Due(f, rs + [r], k);
      DueIsUnique(faults, f, f, rs + [r], k, |rs|);
    }
  }

  /** The counter test of the code is the due condition of the history. */
  lemma CounterMeansDue(faults: seq<Fault>, rs: seq<RequestClass>, r: RequestClass, f: Fault)
    requires faults != []
    ensures f.action in ActionsOf(r) && Count(Counted(StateAfter(faults, rs), ActionsOf(r)), f.action) == f.occurrence
      <==> Due(f, rs + [r], |rs|)
  {
    CountersAgree(faults, rs);
    ActionBelongsToClass(f.action, r);
    assert (rs + [r])[..|rs| + 1] == rs + [r] && (rs + [r])[..|rs|] == rs;
  }

  lemma DueMeansDue(faults: seq<Fault>, rs: seq<RequestClass>, r: RequestClass, f: Fault)
    requires ScheduleOk(faults) && f in faults && Sound(faults, rs, StateAfter(faults, rs))
    ensures IsDue(Counted(StateAfter(faults, rs), ActionsOf(r)), ActionsOf(r))(f) <==> Due(f, rs + [r], |rs|)
  {
    CounterMeansDue(faults, rs, r, f);
    if Due(f, rs + [r], |rs|) {
      DueIsNew(faults, rs, r, f, StateAfter(faults, rs));
    }
  }

  lemma PendingIsScheduled(faults: seq<Fault>, rs: seq<RequestClass>, s: FaultState)
    requires Sound(faults, rs, s) && s.pending.Some?
    ensures FirstFault(faults, IsPending(s)).Some? && FirstFault(faults, IsPending(s)).value.id == s.pending.value
    ensures FirstFault(faults, IsPending(s)).value in faults
  {
    assert RequiredFault(faults, s.pending.value);
  }

  /** One request: what happens next, said without the code's searches. */
  ghost predicate Next(faults: seq<Fault>, rs: seq<RequestClass>, r: RequestClass, s: FaultState, t: FaultState) {
    if s.pending.Some? then
      exists f :: f in faults && f.id == s.pending.value && t.applied == s.applied &&
        (if ClassOf(f.action) == r then t.recovered == s.recovered + [f.id] && t.pending == None
         else t.recovered == s.recovered && t.pending == s.pending)
    else
      && t.recovered == s.recovered
      && ((exists f :: f in faults && Due(f, rs + [r], |rs|)) ==>
           exists f :: f in faults && Due(f, rs + [r], |rs|) && t.applied == s.applied + [f.id]
             && t.pending == if f.requiredRecovery then Some(f.id) else None)
      && ((forall f :: f in faults ==> !Due(f, rs + [r], |rs|)) ==> t.applied == s.applied && t.pending == None)
  }

  lemma RequestMeaning(faults: seq<Fault>, rs: seq<RequestClass>, r: RequestClass)
    requires ScheduleOk(faults) && faults != [] && Sound(faults, rs, StateAfter(faults, rs))
    ensures Next(faults, rs, r, StateAfter(faults, rs), StateAfter(faults, rs + [r]))
  {
    var s, t := StateAfter(faults, rs), StateAfter(faults, rs + [r]);
    var actions := ActionsOf(r);
    var counted := Counted(s, actions);
    assert (rs + [r])[..|rs|] == rs;
    assert t == React(faults, counted, actions).0;
    if s.pending.Some? {
      PendingIsScheduled(faults, rs, counted);
      ActionBelongsToClass(FirstFault(faults, IsPending(counted)).value.action, r);
    } else {
      assert FirstFault(faults, IsPending(counted)).None?;
      var due := FirstFault(faults, IsDue(counted, actions));
      forall f | f in faults
        ensures IsDue(counted, actions)(f) <==> Due(f, rs + [r], |rs|)
      {
        DueMeansDue(faults, rs, r, f);
      }
    }
  }

  lemma AppendDistinct(ids: seq<string>, id: string)
    requires Distinct(ids) && id !in ids
    ensures Distinct(ids + [id])
  {
  }

  lemma SoundStep(faults: seq<Fault>, rs: seq<RequestClass>, r: RequestClass)
    requires ScheduleOk(faults) && faults != []
    requires Sound(faults, rs, StateAfter(faults, rs))
    ensures Sound(faults, rs + [r], StateAfter(faults, rs + [r]))
  {
    var s, t := StateAfter(faults, rs), StateAfter(faults, rs + [r]);
    RequestMeaning(faults, rs, r);
    forall id | id in s.applied
      ensures WasDue(faults, rs + [r], id)
    {
      WasDueExtends(faults, rs, r, id);
    }
    if s.pending.Some? {
      AppendDistinct(s.recovered, s.pending.value);
    } else if exists f :: f in faults && Due(f, rs + [r], |rs|) {
      var f :| f in faults && Due(f, rs + [r], |rs|) && t.applied == s.applied + [f.id]
        && t.pending == if f.requiredRecovery then Some(f.id) else None;
      InjectionIsFirst(faults, rs, r, f);
      AppendDistinct(s.applied, f.id);
      assert forall h :: h in faults && h.id == f.id ==> h == f by {
        forall h | h in faults && h.id == f.id
          ensures h == f
        {
          UniqueById(faults, h, f);
        }
      }
    }
  }

  lemma InjectionIsFirst(faults: seq<Fault>, rs: seq<RequestClass>, r: RequestClass, f: Fault)
    requires ScheduleOk(faults) && f in faults && Sound(faults, rs, StateAfter(faults, rs))
    requires Due(f, rs + [r], |rs|)
    ensures f.id !in StateAfter(faults, rs).applied
  {
    DueMeansDue(faults, rs, r, f);
  }

  /** In every reachable state each fault was applied at most once and only at
      its due request, and the applied faults that demand recovery are exactly
      the recovered ones together with the single pending one. */
  lemma {:induction false} EveryStateIsSound(faults: seq<Fault>, rs: seq<RequestClass>)
    requires ScheduleOk(faults)
    ensures Sound(faults, rs, StateAfter(faults, rs))
  {
    if rs != [] {
      var front := rs[..|rs| - 1];
      EveryStateIsSound(faults, front);
      assert front + [rs[|rs| - 1]] == rs;
      if faults != [] {
        SoundStep(faults, front, rs[|rs| - 1]);
      }
    }
  }

  /** A fault is injected by a request exactly when the request is the one at
      which its counter reaches the trigger and no recovery is pending. */
  lemma InjectedIffDueAndClear(faults: seq<Fault>, rs: seq<RequestClass>, i: nat, f: Fault)
    requires ScheduleOk(faults) && f in faults && i < |rs|
    ensures var (s, t) := (StateAfter(faults, rs[..i]), StateAfter(faults, rs[..i + 1]));
      && (t.applied == s.applied + [f.id] <==> Due(f, rs, i) && s.pending.None?)
      && (f.id in t.applied <==> f.id in s.applied || (Due(f, rs, i) && s.pending.None?))
  {
    var front := rs[..i];
    EveryStateIsSound(faults, front);
    assert rs[..i + 1] == front + [rs[i]];
    RequestMeaning(faults, front, rs[i]);
    DueInPrefix(f, rs, i);
    if Due(f, rs, i) {
      InjectionIsFirst(faults, front, rs[i], f);
    }
    forall h | h in faults && Due(h, front + [rs[i]], i)
      ensures h.id == f.id <==> h == f
      ensures Due(f, front + [rs[i]], i) ==> h == f
    {
      if h.id == f.id {
        UniqueById(faults, h, f);
      }
      DueIsUnique(faults, f, h, front + [rs[i]], i, i);
    }
    var s, t := StateAfter(faults, front), StateAfter(faults, rs[..i + 1]);
    assert (s.applied + [f.id])[|s.applied|] == f.id;
    assert |s.applied + [f.id]| == |s.applied| + 1;
  }

  lemma DueInPrefix(f: Fault, rs: seq<RequestClass>, i: nat)
    requires i < |rs|
    ensures Due(f, rs[..i] + [rs[i]], i) <==> Due(f, rs, i)
  {
    assert (rs[..i] + [rs[i]])[..i + 1] == rs[..i + 1];
  }

  /** The due request of `f` is request `i`, and it meets no pending recovery. */
  ghost predicate InjectableAt(faults: seq<Fault>, rs: seq<RequestClass>, i: nat, f: Fault) {
    i < |rs| && Due(f, rs, i) && StateAfter(faults, rs[..i]).pending.None?
  }

  lemma InjectableInPrefix(faults: seq<Fault>, rs: seq<RequestClass>, n: nat, i: nat, f: Fault)
    requires i < n <= |rs|
    ensures InjectableAt(faults, rs[..n], i, f) <==> InjectableAt(faults, rs, i, f)
  {
    assert rs[..n][..i] == rs[..i] && rs[..n][..i + 1] == rs[..i + 1];
  }

  ghost predicate EverInjectable(faults: seq<Fault>, rs: seq<RequestClass>, f: Fault) {
    exists i: nat :: InjectableAt(faults, rs, i, f)
  }

  /** One more request can only add its own injection. */
  lemma InjectableLater(faults: seq<Fault>, rs: seq<RequestClass>, n: nat, f: Fault)
    requires |rs| == n + 1
    ensures EverInjectable(faults, rs, f) <==> EverInjectable(faults, rs[..n], f) || InjectableAt(faults, rs, n, f)
  {
    if i: nat :| InjectableAt(faults, rs[..n], i, f) {
      InjectableInPrefix(faults, rs, n, i, f);
    }
    if i: nat :| InjectableAt(faults, rs, i, f) && i < n {
      InjectableInPrefix(faults, rs, n, i, f);
    }
  }

  lemma AppliedLater(faults: seq<Fault>, rs: seq<RequestClass>, n: nat, f: Fault)
    requires ScheduleOk(faults) && f in faults && |rs| == n + 1
    ensures f.id in StateAfter(faults, rs).applied <==>
      f.id in StateAfter(faults, rs[..n]).applied || InjectableAt(faults, rs, n, f)
  {
    InjectedIffDueAndClear(faults, rs, n, f);
    assert rs[..n + 1] == rs;
  }

  lemma NothingInjectableYet(faults: seq<Fault>, f: Fault)
    ensures !EverInjectable(faults, [], f) && f.id !in StateAfter(faults, []).applied
  {
  }

  /** After a whole history: a fault has been applied exactly when its due
      request came while no recovery was pending. */
  lemma {:induction false} AppliedIffDueWhileClear(faults: seq<Fault>, rs: seq<RequestClass>, f: Fault)
    requires ScheduleOk(faults) && f in faults
    ensures f.id in StateAfter(faults, rs).applied <==> EverInjectable(faults, rs, f)
  {
    if rs == [] {
      NothingInjectableYet(faults, f);
    } else {
      var n := |rs| - 1;
      AppliedIffDueWhileClear(faults, rs[..n], f);
      AppliedLater(faults, rs, n, f);
      InjectableLater(faults, rs, n, f);
    }
  }

  /** A pending fault stays pending, and nothing is injected, up to the first
      later request that carries its action. */
  lemma {:induction false} PendingWaits(faults: seq<Fault>, rs: seq<RequestClass>, i: nat, j: nat, f: Fault)
    requires ScheduleOk(faults) && f in faults && i <= j <= |rs|
    requires StateAfter(faults, rs[..i]).pending == Some(f.id)
    requires forall k :: i <= k < j ==> rs[k] != ClassOf(f.action)
    ensures StateAfter(faults, rs[..j]).pending == Some(f.id)
    ensures StateAfter(faults, rs[..j]).applied == StateAfter(faults, rs[..i]).applied
    ensures StateAfter(faults, rs[..j]).recovered == StateAfter(faults, rs[..i]).recovered
    decreases j - i
  {
    if i < j {
      PendingWaits(faults, rs, i, j - 1, f);
      PendingMoves(faults, rs, j - 1, f);
    }
  }

  /** ... and that request recovers it, once. */
  lemma PendingMoves(faults: seq<Fault>, rs: seq<RequestClass>, j: nat, f: Fault)
    requires ScheduleOk(faults) && f in faults && j < |rs|
    requires StateAfter(faults, rs[..j]).pending == Some(f.id)
    ensures var (s, t) := (StateAfter(faults, rs[..j]), StateAfter(faults, rs[..j + 1]));
      && t.applied == s.applied
      && (rs[j] == ClassOf(f.action) ==> t.pending == None && t.recovered == s.recovered + [f.id])
      && (rs[j] != ClassOf(f.action) ==> t.pending == s.pending && t.recovered == s.recovered)
  {
    EveryStateIsSound(faults, rs[..j]);
    assert rs[..j + 1] == rs[..j] + [rs[j]];
    RequestMeaning(faults, rs[..j], rs[j]);
    var s := StateAfter(faults, rs[..j]);
    forall h | h in faults && h.id == s.pending.value
      ensures h == f
    {
      UniqueById(faults, h, f);
    }
  }

  /** Recovery as a whole: the first request after `i` that carries the action of
      the pending fault recovers it, and nothing is injected in between. */
  lemma RecoveredByFirstMatchingRequest(faults: seq<Fault>, rs: seq<RequestClass>, i: nat, j: nat, f: Fault)
    requires ScheduleOk(faults) && f in faults && i <= j < |rs|
    requires StateAfter(faults, rs[..i]).pending == Some(f.id)
    requires rs[j] == ClassOf(f.action) && forall k :: i <= k < j ==> rs[k] != ClassOf(f.action)
    ensures var (s, t) := (StateAfter(faults, rs[..i]), StateAfter(faults, rs[..j + 1]));
      t.pending == None && t.applied == s.applied && t.recovered == s.recovered + [f.id]
    ensures forall k :: i <= k <= j ==> StateAfter(faults, rs[..k]).applied == StateAfter(faults, rs[..i]).applied
  {
    forall k | i <= k <= j
      ensures StateAfter(faults, rs[..k]).applied == StateAfter(faults, rs[..i]).applied
    {
      PendingWaits(faults, rs, i, k, f);
    }
    PendingWaits(faults, rs, i, j, f);
    PendingMoves(faults, rs, j, f);
  }

  // What the requests are answered ------------------------------------------------------

  /** Request `i` injects `f`: it is due and nothing is pending. */
  ghost predicate Injects(faults: seq<Fault>, rs: seq<RequestClass>, i: nat, f: Fault) {
    f in faults && InjectableAt(faults, rs, i, f)
  }

  /** Request `i` recovers `f`: it is pending and its action is requested. */
  ghost predicate Recovers(faults: seq<Fault>, rs: seq<RequestClass>, i: nat, f: Fault) {
    f in faults && i < |rs| && StateAfter(faults, rs[..i]).pending == Some(f.id) && rs[i] == ClassOf(f.action)
  }

  lemma InjectedAnswer(faults: seq<Fault>, rs: seq<RequestClass>, i: nat)
    requires ScheduleOk(faults) && faults != [] && i < |rs| && StateAfter(faults, rs[..i]).pending.None?
    ensures var o := ObservedAt(faults, rs, i);
      && o.recovered.None?
      && (o.injected.Some? ==> exists f :: Injects(faults, rs, i, f) && o.injected == Some(f.kind))
      && (o.injected.None? ==> forall f :: !Injects(faults, rs, i, f))
  {
    var front := rs[..i];
    var counted := Counted(StateAfter(faults, front), ActionsOf(rs[i]));
    EveryStateIsSound(faults, front);
    assert FirstFault(faults, IsPending(counted)).None?;
    var due := FirstFault(faults, IsDue(counted, ActionsOf(rs[i])));
    forall f | f in faults
      ensures IsDue(counted, ActionsOf(rs[i]))(f) <==> Injects(faults, rs, i, f)
    {
      DueMeansDue(faults, front, rs[i], f);
      DueInPrefix(f, rs, i);
    }
    if due.Some? {
      assert Injects(faults, rs, i, due.value);
    }
  }

  lemma RecoveredAnswer(faults: seq<Fault>, rs: seq<RequestClass>, i: nat)
    requires ScheduleOk(faults) && i < |rs| && StateAfter(faults, rs[..i]).pending.Some?
    ensures var o := ObservedAt(faults, rs, i);
      && o.injected.None?
      && (o.recovered.Some? ==> exists f :: Recovers(faults, rs, i, f) && o.recovered == Some(f.kind))
      && (o.recovered.None? ==> forall f :: !Recovers(faults, rs, i, f))
  {
    var front := rs[..i];
    var counted := Counted(StateAfter(faults, front), ActionsOf(rs[i]));
    EveryStateIsSound(faults, front);
    PendingIsScheduled(faults, front, counted);
    var pending := FirstFault(faults, IsPending(counted)).value;
    ActionBelongsToClass(pending.action, rs[i]);
    forall f | Recovers(faults, rs, i, f)
      ensures f == pending
    {
      UniqueById(faults, f, pending);
    }
    if rs[i] == ClassOf(pending.action) {
      assert Recovers(faults, rs, i, pending);
    }
  }

  lemma InjectsOne(faults: seq<Fault>, rs: seq<RequestClass>, i: nat, f: Fault, h: Fault)
    requires ScheduleOk(faults)
    ensures Injects(faults, rs, i, f) && Injects(faults, rs, i, h) ==> f == h
    ensures Recovers(faults, rs, i, f) && Recovers(faults, rs, i, h) ==> f == h
    ensures !(Injects(faults, rs, i, f) && Recovers(faults, rs, i, h))
  {
    if Injects(faults, rs, i, f) && Injects(faults, rs, i, h) {
      DueIsUnique(faults, f, h, rs, i, i);
    }
    if Recovers(faults, rs, i, f) && Recovers(faults, rs, i, h) {
      UniqueById(faults, f, h);
    }
  }

  /** The observation reports a kind exactly for the one fault that the request
      injects, or for the one that it recovers, and never both. */
  lemma AnswersMatchFaults(faults: seq<Fault>, rs: seq<RequestClass>, i: nat, f: Fault)
    requires ScheduleOk(faults) && i < |rs|
    ensures var o := ObservedAt(faults, rs, i);
      && (Injects(faults, rs, i, f) ==> o.injected == Some(f.kind) && o.recovered == None)
      && (Recovers(faults, rs, i, f) ==> o.recovered == Some(f.kind) && o.injected == None)
      && (o.injected.Some? <==> exists h :: Injects(faults, rs, i, h))
      && (o.recovered.Some? <==> exists h :: Recovers(faults, rs, i, h))
  {
    if faults == [] {
      assert ObservedAt(faults, rs, i) == FaultMachine.Observation(false, None, None);
    } else if StateAfter(faults, rs[..i]).pending.None? {
      InjectedAnswer(faults, rs, i);
      if h :| Injects(faults, rs, i, h) && ObservedAt(faults, rs, i).injected == Some(h.kind) {
        InjectsOne(faults, rs, i, f, h);
      }
    } else {
      RecoveredAnswer(faults, rs, i);
      if h :| Recovers(faults, rs, i, h) && ObservedAt(faults, rs, i).recovered == Some(h.kind) {
        InjectsOne(faults, rs, i, f, h);
      }
    }
  }
}
