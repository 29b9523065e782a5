/** Which fault schedules a session can recover from completely. */
module FaultRecovery {
  import opened Collections
  import opened ScenarioGraph
  import opened FaultMachine
  import opened FaultGuarantees

  /** `h` is due at the first request that can recover `f`. */
  predicate Adjacent(f: Fault, h: Fault) {
    ClassOf(f.action) == ClassOf(h.action) && h.occurrence == f.occurrence + 1
  }

  predicate Collide(f: Fault, h: Fault) {
    f.requiredRecovery && h.requiredRecovery && Adjacent(f, h)
  }

  ghost predicate NoCollision(faults: seq<Fault>) {
    forall f, h :: f in faults && h in faults ==> !Collide(f, h)
  }

  ghost predicate AllRecovered(faults: seq<Fault>, rs: seq<RequestClass>) {
    forall f :: f in faults && f.requiredRecovery ==> f.id in StateAfter(faults, rs).recovered
  }

  // A collision cannot be recovered ----------------------------------------------------

  lemma InjectionPends(faults: seq<Fault>, rs: seq<RequestClass>, i: nat, f: Fault)
    requires ScheduleOk(faults) && f in faults && InjectableAt(faults, rs, i, f)
    ensures StateAfter(faults, rs[..i + 1]).pending == if f.requiredRecovery then Some(f.id) else None
  {
    var front := rs[..i];
    EveryStateIsSound(faults, front);
    assert rs[..i + 1] == front + [rs[i]];
    RequestMeaning(faults, front, rs[i]);
    DueInPrefix(f, rs, i);
    forall h | h in faults && Due(h, front + [rs[i]], i)
      ensures h == f
    {
      DueIsUnique(faults, f, h, front + [rs[i]], i, i);
    }
  }

  /** Between two adjacent due requests their class is not requested. */
  lemma NothingBetween(f: Fault, h: Fault, rs: seq<RequestClass>, i: nat, j: nat, k: nat)
    requires Adjacent(f, h) && Due(f, rs, i) && Due(h, rs, j)
    ensures i < j
    ensures i < k < j ==> rs[k] != rs[i]
  {
    if j <= i {
      CountGrows(rs, rs[i], j + 1, i + 1);
    }
    if i < k < j && rs[k] == rs[i] {
      CountGrows(rs, rs[i], i + 1, k);
      PrefixStep(rs, k);
      CountGrows(rs, rs[i], k + 1, j);
      PrefixStep(rs, j);
    }
  }

  /** Whatever is requested, a fault that needs recovery keeps an adjacent one from
      ever being applied. */
  lemma AdjacentExclude(faults: seq<Fault>, rs: seq<RequestClass>, f: Fault, h: Fault)
    requires ScheduleOk(faults) && f in faults && h in faults && f.requiredRecovery && Adjacent(f, h)
    ensures !(f.id in StateAfter(faults, rs).applied && h.id in StateAfter(faults, rs).applied)
  {
    AppliedIffDueWhileClear(faults, rs, f);
    AppliedIffDueWhileClear(faults, rs, h);
    if EverInjectable(faults, rs, f) && EverInjectable(faults, rs, h) {
      var i: nat :| InjectableAt(faults, rs, i, f);
      var j: nat :| InjectableAt(faults, rs, j, h);
      NothingBetween(f, h, rs, i, j, j);
      forall k | i + 1 <= k < j
        ensures rs[k] != ClassOf(f.action)
      {
        NothingBetween(f, h, rs, i, j, k);
      }
      InjectionPends(faults, rs, i, f);
      PendingWaits(faults, rs, i + 1, j, f);
    }
  }

  // Without collisions, class after class ------------------------------------------------

  function Repeat(c: RequestClass, n: nat): seq<RequestClass> {
    if n == 0 then [] else Repeat(c, n - 1) + [c]
  }

  /** Every required fault of class `c` that is due by its `n`-th request was applied. */
  ghost predicate AppliedBy(faults: seq<Fault>, applied: seq<string>, c: RequestClass, n: nat) {
    forall f :: f in faults && RequiredOf(f, c) && f.occurrence <= n ==> f.id in applied
  }

  ghost predicate WaitsJustDue(faults: seq<Fault>, id: string, c: RequestClass, n: nat) {
    exists f :: f in faults && RequiredOf(f, c) && f.occurrence == n && f.id == id
  }

  /** After `n` requests of class `c` every required fault due by then was applied,
      and only the one that is due just now may wait for recovery. */
  ghost predicate Caught(faults: seq<Fault>, rs: seq<RequestClass>, c: RequestClass, n: nat) {
    var s := StateAfter(faults, rs);
    && ClassCount(rs, c) == n
    && AppliedBy(faults, s.applied, c, n)
    && (s.pending.Some? ==> WaitsJustDue(faults, s.pending.value, c, n))
  }

  predicate RequiredOf(f: Fault, c: RequestClass) {
    f.requiredRecovery && ClassOf(f.action) == c
  }

  lemma NextIsDue(rs: seq<RequestClass>, c: RequestClass, f: Fault)
    requires ClassOf(f.action) == c
    ensures Due(f, rs + [c], |rs|) <==> f.occurrence == ClassCount(rs, c) + 1
    ensures ClassCount(rs + [c], c) == ClassCount(rs, c) + 1
  {
    assert (rs + [c])[..|rs| + 1] == rs + [c] && (rs + [c])[..|rs|] == rs;
  }

  lemma PendingIsRecovered(faults: seq<Fault>, rs: seq<RequestClass>, c: RequestClass, f: Fault)
    requires ScheduleOk(faults) && f in faults && ClassOf(f.action) == c
    requires StateAfter(faults, rs).pending == Some(f.id)
    ensures StateAfter(faults, rs + [c]).applied == StateAfter(faults, rs).applied
    ensures StateAfter(faults, rs + [c]).pending.None?
  {
    var all := rs + [c];
    assert all[..|rs|] == rs && all[..|rs| + 1] == all;
    PendingMoves(faults, all, |rs|, f);
  }

  /** Behind a required fault nothing required is due at the next request. */
  lemma NothingDueNext(faults: seq<Fault>, applied: seq<string>, c: RequestClass, n: nat, f: Fault)
    requires NoCollision(faults) && AppliedBy(faults, applied, c, n)
    requires f in faults && RequiredOf(f, c) && f.occurrence == n
    ensures AppliedBy(faults, applied, c, n + 1)
  {
    forall h | h in faults && RequiredOf(h, c) && h.occurrence <= n + 1
      ensures h.id in applied
    {
      assert !Collide(f, h);
    }
  }

  /** While a recovery is pending: the request recovers, and nothing required is due. */
  lemma RecoveryCatches(faults: seq<Fault>, rs: seq<RequestClass>, c: RequestClass, n: nat)
    requires ScheduleOk(faults) && NoCollision(faults) && Caught(faults, rs, c, n)
    requires StateAfter(faults, rs).pending.Some?
    ensures Caught(faults, rs + [c], c, n + 1)
    ensures StateAfter(faults, rs + [c]).pending.None?
  {
    var f :| f in faults && RequiredOf(f, c) && f.occurrence == n && f.id == StateAfter(faults, rs).pending.value;
    NextIsDue(rs, c, f);
    PendingIsRecovered(faults, rs, c, f);
    NothingDueNext(faults, StateAfter(faults, rs).applied, c, n, f);
  }

  /** With nothing pending: what is due is applied. */
  lemma InjectionCatches(faults: seq<Fault>, rs: seq<RequestClass>, c: RequestClass, n: nat)
    requires ScheduleOk(faults) && faults != [] && Caught(faults, rs, c, n)
    requires StateAfter(faults, rs).pending.None?
    ensures Caught(faults, rs + [c], c, n + 1)
  {
    var s, t := StateAfter(faults, rs), StateAfter(faults, rs + [c]);
    EveryStateIsSound(faults, rs);
    RequestMeaning(faults, rs, c);
    if h :| h in faults && Due(h, rs + [c], |rs|) {
      assert ClassOf(h.action) == c;
      NextIsDue(rs, c, h);
      OnlyOneDue(faults, rs, c, h);
    } else {
      assert t.applied == s.applied && t.pending.None?;
    }
    forall h | h in faults && RequiredOf(h, c) && h.occurrence <= n + 1
      ensures h.id in t.applied
    {
      NextIsDue(rs, c, h);
    }
    assert ClassCount(rs + [c], c) == n + 1 by {
      assert (rs + [c])[..|rs|] == rs;
    }
  }

  lemma OnlyOneDue(faults: seq<Fault>, rs: seq<RequestClass>, c: RequestClass, f: Fault)
    requires ScheduleOk(faults) && f in faults && Due(f, rs + [c], |rs|)
    ensures forall h :: h in faults && Due(h, rs + [c], |rs|) ==> h == f
  {
    forall h | h in faults && Due(h, rs + [c], |rs|)
      ensures h == f
    {
      DueIsUnique(faults, f, h, rs + [c], |rs|, |rs|);
    }
  }

  ghost predicate RecoveredGrow(faults: seq<Fault>, rs: seq<RequestClass>, more: seq<RequestClass>) {
    forall id :: id in StateAfter(faults, rs).recovered ==> id in StateAfter(faults, more).recovered
  }

  lemma RequestKeepsRecovered(faults: seq<Fault>, rs: seq<RequestClass>, r: RequestClass)
    requires ScheduleOk(faults)
    ensures RecoveredGrow(faults, rs, rs + [r])
  {
    if faults == [] {
      assert (rs + [r])[..|rs|] == rs;
    } else {
      EveryStateIsSound(faults, rs);
      RequestMeaning(faults, rs, r);
    }
  }

  lemma RequestCatches(faults: seq<Fault>, rs: seq<RequestClass>, c: RequestClass, n: nat)
    requires ScheduleOk(faults) && NoCollision(faults) && faults != [] && Caught(faults, rs, c, n)
    ensures Caught(faults, rs + [c], c, n + 1) && RecoveredGrow(faults, rs, rs + [c])
  {
    if StateAfter(faults, rs).pending.Some? {
      RecoveryCatches(faults, rs, c, n);
    } else {
      InjectionCatches(faults, rs, c, n);
    }
    RequestKeepsRecovered(faults, rs, c);
  }

  lemma RecoveredGrowOn(faults: seq<Fault>, rs: seq<RequestClass>, more: seq<RequestClass>, most: seq<RequestClass>)
    requires RecoveredGrow(faults, rs, more) && RecoveredGrow(faults, more, most)
    ensures RecoveredGrow(faults, rs, most)
  {
  }

  ghost predicate Phase(faults: seq<Fault>, rs: seq<RequestClass>, c: RequestClass, n: nat) {
    Caught(faults, rs + Repeat(c, n), c, n) && RecoveredGrow(faults, rs, rs + Repeat(c, n))
  }

  lemma PhaseStep(faults: seq<Fault>, rs: seq<RequestClass>, c: RequestClass, n: nat, more: seq<RequestClass>)
    requires ScheduleOk(faults) && NoCollision(faults) && faults != []
    requires Caught(faults, more, c, n) && RecoveredGrow(faults, rs, more)
    ensures Caught(faults, more + [c], c, n + 1) && RecoveredGrow(faults, rs, more + [c])
  {
    RequestCatches(faults, more, c, n);
    RecoveredGrowOn(faults, rs, more, more + [c]);
  }

  lemma RepeatSteps(rs: seq<RequestClass>, c: RequestClass, n: nat)
    requires n > 0
    ensures rs + Repeat(c, n) == rs + Repeat(c, n - 1) + [c]
  {
  }

  lemma {:induction false} PhaseCatches(faults: seq<Fault>, rs: seq<RequestClass>, c: RequestClass, n: nat)
    requires ScheduleOk(faults) && NoCollision(faults) && faults != [] && Caught(faults, rs, c, 0)
    ensures Phase(faults, rs, c, n)
  {
    if n == 0 {
      assert rs + Repeat(c, 0) == rs;
    } else {
      PhaseCatches(faults, rs, c, n - 1);
      PhaseStep(faults, rs, c, n - 1, rs + Repeat(c, n - 1));
      RepeatSteps(rs, c, n);
    }
  }

  function LastOccurrence(faults: seq<Fault>): (n: nat)
    ensures forall f :: f in faults ==> f.occurrence <= n
  {
    if faults == [] then 0
    else
      var rest := LastOccurrence(faults[1..]);
      if faults[0].occurrence > rest then faults[0].occurrence else rest
  }

  /** Past the last trigger, the required faults of the class are recovered. */
  lemma CaughtIsRecovered(faults: seq<Fault>, rs: seq<RequestClass>, c: RequestClass, n: nat)
    requires ScheduleOk(faults) && Caught(faults, rs, c, n) && n > LastOccurrence(faults)
    ensures StateAfter(faults, rs).pending.None?
    ensures forall f :: f in faults && RequiredOf(f, c) ==> f.id in StateAfter(faults, rs).recovered
  {
    EveryStateIsSound(faults, rs);
    forall f | f in faults && RequiredOf(f, c)
      ensures f.id in StateAfter(faults, rs).recovered
    {
      assert RequiredFault(faults, f.id);
    }
  }

  lemma {:induction false} OtherClassNotCounted(c: RequestClass, d: RequestClass, n: nat)
    requires c != d
    ensures ClassCount(Repeat(c, n), d) == 0
  {
    if n > 0 {
      OtherClassNotCounted(c, d, n - 1);
      assert Repeat(c, n)[..|Repeat(c, n)| - 1] == Repeat(c, n - 1);
    }
  }

  /** All mutations first, then all reads, each past the last trigger. */
  function FullHistory(faults: seq<Fault>): seq<RequestClass> {
    Repeat(MutationRequest, LastOccurrence(faults) + 1) + Repeat(ReadRequest, LastOccurrence(faults) + 1)
  }

  ghost predicate TriggersOk(faults: seq<Fault>) {
    forall f :: f in faults ==> f.occurrence > 0
  }

  lemma FullHistoryRecovers(faults: seq<Fault>)
    requires ScheduleOk(faults) && TriggersOk(faults) && NoCollision(faults)
    ensures AllRecovered(faults, FullHistory(faults))
  {
    if faults != [] {
      var n := LastOccurrence(faults) + 1;
      var mutations := Repeat(MutationRequest, n);
      assert [] + mutations == mutations;
      PhaseCatches(faults, [], MutationRequest, n);
      CaughtIsRecovered(faults, mutations, MutationRequest, n);
      OtherClassNotCounted(MutationRequest, ReadRequest, n);
      PhaseCatches(faults, mutations, ReadRequest, n);
      CaughtIsRecovered(faults, FullHistory(faults), ReadRequest, n);
      forall f | f in faults && f.requiredRecovery
        ensures f.id in StateAfter(faults, FullHistory(faults)).recovered
      {
        assert RequiredOf(f, MutationRequest) || RequiredOf(f, ReadRequest);
      }
    }
  }

  lemma CollisionIsFatal(faults: seq<Fault>, rs: seq<RequestClass>, f: Fault, h: Fault)
    requires ScheduleOk(faults) && f in faults && h in faults && Collide(f, h)
    ensures !(f.id in StateAfter(faults, rs).recovered && h.id in StateAfter(faults, rs).recovered)
  {
    EveryStateIsSound(faults, rs);
    AdjacentExclude(faults, rs, f, h);
  }

  /** Some sequence of requests recovers every required fault exactly when no two
      required faults of one request class trigger at adjacent occurrences: the
      request that recovers the first would be the only one due for the second. */
  lemma RecoverableIffNoCollision(faults: seq<Fault>)
    requires ScheduleOk(faults) && TriggersOk(faults)
    ensures (exists rs :: AllRecovered(faults, rs)) <==> NoCollision(faults)
  {
    if NoCollision(faults) {
      FullHistoryRecovers(faults);
    }
    if rs :| AllRecovered(faults, rs) {
      forall f, h | f in faults && h in faults
        ensures !Collide(f, h)
      {
        if Collide(f, h) {
          CollisionIsFatal(faults, rs, f, h);
        }
      }
    }
  }
}
