/** Deterministic faults of one hosted session: per-action counters, one-shot
    injection and a single pending recovery, kept in the session metadata. */
module FaultMachine {
  import opened Collections
  import opened JsonValues
  import opened ScenarioGraph

  datatype FaultState = FaultState(
    readCount: nat,
    mutationCount: nat,
    navigationCount: nat,
    applied: seq<string>,
    recovered: seq<string>,
    pending: Option<string>)

  const EMPTY_STATE: FaultState := FaultState(0, 0, 0, [], [], None)

  datatype Observation = Observation(changed: bool, injected: Option<FaultKind>, recovered: Option<FaultKind>)

  function Count(s: FaultState, a: FaultAction): nat {
    match a
    case Read => s.readCount
    case Mutation => s.mutationCount
    case Navigation => s.navigationCount
  }

  function Bump(s: FaultState, a: FaultAction): FaultState {
    match a
    case Read => s.(readCount := s.readCount + 1)
    case Mutation => s.(mutationCount := s.mutationCount + 1)
    case Navigation => s.(navigationCount := s.navigationCount + 1)
  }

  /** Every action of the request is counted once. */
  function Counted(s: FaultState, actions: set<FaultAction>): FaultState {
    s.(readCount := s.readCount + (if Read in actions then 1 else 0),
       mutationCount := s.mutationCount + (if Mutation in actions then 1 else 0),
       navigationCount := s.navigationCount + (if Navigation in actions then 1 else 0))
  }

  function FirstFault(faults: seq<Fault>, p: Fault -> bool): (found: Option<Fault>)
    ensures found.Some? ==> found.value in faults && p(found.value)
    ensures found.None? ==> forall f :: f in faults ==> !p(f)
  {
    if faults == [] then None
    else if p(faults[0]) then Some(faults[0])
    else FirstFault(faults[1..], p)
  }

  function IsPending(s: FaultState): Fault -> bool {
    (f: Fault) => s.pending == Some(f.id)
  }

  function IsDue(s: FaultState, actions: set<FaultAction>): Fault -> bool {
    (f: Fault) => f.action in actions && Count(s, f.action) == f.occurrence && f.id !in s.applied
  }

  /** One request, after its actions have been counted. */
  function React(faults: seq<Fault>, s: FaultState, actions: set<FaultAction>): (FaultState, Observation) {
    var pendingFault := FirstFault(faults, IsPending(s));
    if pendingFault.Some? then
      var f := pendingFault.value;
      if f.action in actions then
        (s.(recovered := if f.id in s.recovered then s.recovered else s.recovered + [f.id], pending := None),
         Observation(true, None, Some(f.kind)))
      else (s, Observation(true, None, None))
    else
      var due := FirstFault(faults, IsDue(s, actions));
      if due.None? then (s, Observation(true, None, None))
      else
        (s.(applied := s.applied + [due.value.id],
            pending := if due.value.requiredRecovery then Some(due.value.id) else None),
         Observation(true, Some(due.value.kind), None))
  }

  function Observe(faults: seq<Fault>, s: FaultState, actions: set<FaultAction>): (FaultState, Observation) {
    if faults == [] || actions == {} then (s, Observation(false, None, None))
    else React(faults, Counted(s, actions), actions)
  }

  // Metadata as JSON -----------------------------------------------------------

  function ReadCount(occurrences: Json, name: string): nat {
    var value := Field(occurrences, name);
    if value.Num? && value.n >= 0.0 && value.n.Floor as real == value.n then value.n.Floor else 0
  }

  function ReadStrings(value: Json): seq<string> {
    if value.Arr? then StringsOf(value.items) else []
  }

  function StringsOf(items: seq<Json>): seq<string> {
    if items == [] then []
    else (if items[0].Str? then [items[0].s] else []) + StringsOf(items[1..])
  }

  /** `readState`: anything unreadable falls back, field by field or entirely. */
  function ReadState(raw: Json): FaultState {
    if !raw.Obj? || Field(raw, "schemaVersion") != Num(1.0) || !Field(raw, "occurrences").Obj? then EMPTY_STATE
    else
      var occurrences := Field(raw, "occurrences");
      var pending := Field(raw, "pendingRecoveryFaultId");
      FaultState(
        ReadCount(occurrences, "read"),
        ReadCount(occurrences, "mutation"),
        ReadCount(occurrences, "navigation"),
        ReadStrings(Field(raw, "appliedFaultIds")),
        ReadStrings(Field(raw, "recoveredFaultIds")),
        if pending.Str? then Some(pending.s) else None)
  }

  function Strings(ids: seq<string>): seq<Json> {
    if ids == [] then [] else [Str(ids[0])] + Strings(ids[1..])
  }

  /** The object that is stored back under `scenarioFaultState`. */
  function WriteState(s: FaultState): Json {
    Obj(map[
      "schemaVersion" := Num(1.0),
      "occurrences" := Obj(map[
        "read" := Num(s.readCount as real),
        "mutation" := Num(s.mutationCount as real),
        "navigation" := Num(s.navigationCount as real)]),
      "appliedFaultIds" := Arr(Strings(s.applied)),
      "recoveredFaultIds" := Arr(Strings(s.recovered)),
      "pendingRecoveryFaultId" := if s.pending.Some? then Str(s.pending.value) else Null])
  }

  lemma {:induction false} StringsRoundTrip(ids: seq<string>)
    ensures StringsOf(Strings(ids)) == ids
  {
    if ids != [] {
      StringsRoundTrip(ids[1..]);
    }
  }

  /** The state survives its stay in the session metadata. */
  lemma StateRoundTrip(s: FaultState)
    ensures ReadState(WriteState(s)) == s
  {
    StringsRoundTrip(s.applied);
    StringsRoundTrip(s.recovered);
    CountRoundTrip(s.readCount);
    CountRoundTrip(s.mutationCount);
    CountRoundTrip(s.navigationCount);
    var occurrences := Field(WriteState(s), "occurrences");
    assert Field(occurrences, "read") == Num(s.readCount as real);
    assert Field(occurrences, "mutation") == Num(s.mutationCount as real);
    assert Field(occurrences, "navigation") == Num(s.navigationCount as real);
  }

  lemma CountRoundTrip(n: nat)
    ensures (n as real).Floor == n
  {
  }

  lemma {:induction false} StringsMeaning(items: seq<Json>, x: string)
    ensures x in StringsOf(items) <==> Str(x) in items
  {
    if items != [] {
      StringsMeaning(items[1..], x);
      assert forall j :: j in items <==> j == items[0] || j in items[1..];
    }
  }

  predicate Readable(raw: Json) {
    raw.Obj? && Field(raw, "schemaVersion") == Num(1.0) && Field(raw, "occurrences").Obj?
  }

  predicate IsCount(field: Json, n: nat) {
    field == Num(n as real)
  }

  /** What a counter field reads as: its count if it is one, and otherwise zero. */
  ghost predicate ReadsAs(field: Json, n: nat) {
    IsCount(field, n) || (n == 0 && forall k: nat :: !IsCount(field, k))
  }

  lemma CountReads(occurrences: Json, name: string)
    ensures ReadsAs(Field(occurrences, name), ReadCount(occurrences, name))
  {
    var value := Field(occurrences, name);
    if k: nat :| IsCount(value, k) {
      CountRoundTrip(k);
    }
  }

  /** What is unreadable falls back: entirely without the right version and counters,
      and otherwise field by field. */
  lemma UnreadableFallsBack(raw: Json)
    ensures !Readable(raw) ==> ReadState(raw) == EMPTY_STATE
    ensures Readable(raw) ==>
      var (s, counters) := (ReadState(raw), Field(raw, "occurrences"));
      && ReadsAs(Field(counters, "read"), s.readCount)
      && ReadsAs(Field(counters, "mutation"), s.mutationCount)
      && ReadsAs(Field(counters, "navigation"), s.navigationCount)
      && (forall x :: x in s.applied <==> Field(raw, "appliedFaultIds").Arr? && Str(x) in Field(raw, "appliedFaultIds").items)
      && (forall x :: x in s.recovered <==> Field(raw, "recoveredFaultIds").Arr? && Str(x) in Field(raw, "recoveredFaultIds").items)
      && (forall x :: s.pending == Some(x) <==> Field(raw, "pendingRecoveryFaultId") == Str(x))
  {
    if Readable(raw) {
      var counters := Field(raw, "occurrences");
      CountReads(counters, "read");
      CountReads(counters, "mutation");
      CountReads(counters, "navigation");
      forall x
        ensures Field(raw, "appliedFaultIds").Arr? ==>
          (x in StringsOf(Field(raw, "appliedFaultIds").items) <==> Str(x) in Field(raw, "appliedFaultIds").items)
        ensures Field(raw, "recoveredFaultIds").Arr? ==>
          (x in StringsOf(Field(raw, "recoveredFaultIds").items) <==> Str(x) in Field(raw, "recoveredFaultIds").items)
      {
        if Field(raw, "appliedFaultIds").Arr? {
          StringsMeaning(Field(raw, "appliedFaultIds").items, x);
        }
        if Field(raw, "recoveredFaultIds").Arr? {
          StringsMeaning(Field(raw, "recoveredFaultIds").items, x);
        }
      }
    }
  }

  /** The metadata of one hosted session. */
  class SessionMetadata {
    const schedule: seq<Fault>
    var scenarioFaultState: Json

    constructor (schedule: seq<Fault>)
      ensures this.schedule == schedule && ReadState(scenarioFaultState) == EMPTY_STATE
    {
      this.schedule := schedule;
      scenarioFaultState := Null;
    }

    /** `actions` is the request's action list; repeats count once. */
    method ObserveDeterministicFault(actions: seq<FaultAction>) returns (observation: Observation)
      modifies this
      ensures (ReadState(scenarioFaultState), observation)
        == Observe(schedule, old(ReadState(scenarioFaultState)), Elements(actions))
      ensures !observation.changed ==> scenarioFaultState == old(scenarioFaultState)
    {
      if schedule == [] || actions == [] {
        assert actions != [] ==> actions[0] in Elements(actions);
        return Observation(false, None, None);
      }
      assert actions[0] in Elements(actions);
      var unique := Elements(actions);
      var state := ReadState(scenarioFaultState);
      ghost var before := state;
      var remaining := unique;
      while remaining != {}
        invariant remaining <= unique
        invariant state == Counted(before, unique - remaining)
        decreases remaining
      {
        var action :| action in remaining;
        remaining := remaining - {action};
        state := Bump(state, action);
        assert unique - remaining == unique - remaining - {action} + {action};
      }
      assert unique - remaining == unique;
      var (next, seen) := React(schedule, state, unique);
      scenarioFaultState := WriteState(next);
      StateRoundTrip(next);
      observation := seen;
    }
  }
}
