/** Semantic browser actions counted from a merged event log: direct actions
    count one each, consecutive edits of one field count once. */
module ActionCost {
  import opened Collections
  import opened JsonValues

  datatype Event = Event(sessionId: string, kind: string, payload: Json)

  predicate IsDirect(kind: string) {
    kind == "page.load" || kind == "navigation" || kind == "click" || kind == "submit"
  }

  predicate IsText(value: Json) {
    value.Str? && value.s != ""
  }

  /** `lower` stands for `String.toLowerCase`. */
  function InputFieldKey(lower: string -> string, payload: Json): string {
    if !payload.Obj? then "input:unknown"
    else
      var nested := Field(payload, "payload");
      var source := if nested.Obj? then nested else payload;
      var name, tag := Field(source, "name"), Field(source, "tag");
      "input:" + if IsText(name) then name.s else if IsText(tag) then lower(tag.s) else "unknown"
  }

  /** Where a payload names its field: in a nested record if it has one. */
  ghost predicate NamesField(payload: Json, property: string, value: string) {
    && payload.Obj? && value != ""
    && var nested := Field(payload, "payload");
       Field(if nested.Obj? then nested else payload, property) == Str(value)
  }

  /** An edit is keyed by the field's name, without one by its tag in lower case, and
      otherwise by nothing. */
  lemma FieldKeyMeaning(lower: string -> string, payload: Json, value: string)
    ensures NamesField(payload, "name", value) ==> InputFieldKey(lower, payload) == "input:" + value
    ensures NamesField(payload, "tag", value) && (forall v :: !NamesField(payload, "name", v)) ==>
      InputFieldKey(lower, payload) == "input:" + lower(value)
    ensures (forall v :: !NamesField(payload, "name", v) && !NamesField(payload, "tag", v)) ==>
      InputFieldKey(lower, payload) == "input:unknown"
  {
    if payload.Obj? {
      var nested := Field(payload, "payload");
      var source := if nested.Obj? then nested else payload;
      if IsText(Field(source, "name")) {
        assert NamesField(payload, "name", Field(source, "name").s);
      }
      if IsText(Field(source, "tag")) {
        assert NamesField(payload, "tag", Field(source, "tag").s);
      }
    }
  }

  /** What one event means for its session. */
  datatype Act = Direct | Input(field: string) | Nothing

  function Meaning(lower: string -> string, e: Event): Act {
    if e.kind == "input" then Input(InputFieldKey(lower, e.payload))
    else if IsDirect(e.kind) then Direct
    else Nothing
  }

  /** A session's running count and its open edit burst. */
  datatype Burst = Burst(count: nat, field: Option<string>)

  function After(b: Burst, act: Act): Burst {
    match act
    case Direct => Burst(b.count + 1, None)
    case Input(field) => Burst(if b.field != Some(field) then b.count + 1 else b.count, Some(field))
    case Nothing => b
  }

  function BurstOf(lower: string -> string, events: seq<Event>, id: string): Burst {
    if events == [] then Burst(0, None)
    else
      var last := events[|events| - 1];
      var before := BurstOf(lower, events[..|events| - 1], id);
      if last.sessionId == id then After(before, Meaning(lower, last)) else before
  }

  function Cost(lower: string -> string, events: seq<Event>, id: string): nat {
    BurstOf(lower, events, id).count
  }

  function CountIn(costs: map<string, nat>, id: string): nat {
    if id in costs then costs[id] else 0
  }

  function FieldIn(fields: map<string, Option<string>>, id: string): Option<string> {
    if id in fields then fields[id] else None
  }

  lemma BurstStep(lower: string -> string, events: seq<Event>, n: nat, id: string)
    requires n < |events|
    ensures BurstOf(lower, events[..n + 1], id) ==
      if events[n].sessionId == id then After(BurstOf(lower, events[..n], id), Meaning(lower, events[n]))
      else BurstOf(lower, events[..n], id)
  {
    assert events[..n + 1][..n] == events[..n];
  }

  function BurstIn(costs: map<string, nat>, fields: map<string, Option<string>>, id: string): Burst {
    Burst(CountIn(costs, id), FieldIn(fields, id))
  }

  ghost predicate Tracks(lower: string -> string, events: seq<Event>, costs: map<string, nat>, fields: map<string, Option<string>>) {
    && (forall id :: id != "" ==> BurstIn(costs, fields, id) == BurstOf(lower, events, id))
    && "" !in costs && (forall id :: id in costs ==> costs[id] > 0)
  }

  /** What the maps must say after one more event. */
  lemma TracksStep(lower: string -> string, events: seq<Event>, n: nat, costs: map<string, nat>, fields: map<string, Option<string>>)
    requires n < |events| && Tracks(lower, events[..n], costs, fields)
    ensures forall id :: id != "" ==>
      (BurstOf(lower, events[..n + 1], id) ==
       if events[n].sessionId == id then After(BurstIn(costs, fields, id), Meaning(lower, events[n]))
       else BurstIn(costs, fields, id))
  {
    forall id | id != ""
      ensures BurstOf(lower, events[..n + 1], id) ==
        if events[n].sessionId == id then After(BurstIn(costs, fields, id), Meaning(lower, events[n]))
        else BurstIn(costs, fields, id)
    {
      BurstStep(lower, events, n, id);
    }
  }

  /** Sessions are listed exactly when they cost something; events without a
      session id are skipped. */
  method CollectNormalizedActionCosts(lower: string -> string, events: seq<Event>) returns (costs: map<string, nat>)
    ensures forall id :: id in costs <==> id != "" && Cost(lower, events, id) > 0
    ensures forall id :: id in costs ==> costs[id] == Cost(lower, events, id)
  {
    costs := map[];
    var fields: map<string, Option<string>> := map[];
    for n := 0 to |events|
      invariant Tracks(lower, events[..n], costs, fields)
    {
      var event := events[n];
      var id := event.sessionId;
      ghost var before, oldCosts, oldFields := BurstIn(costs, fields, id), costs, fields;
      TracksStep(lower, events, n, costs, fields);
      if id == "" {
        continue;
      }
      if event.kind == "input" {
        var key := InputFieldKey(lower, event.payload);
        if FieldIn(fields, id) != Some(key) {
          costs := costs[id := CountIn(costs, id) + 1];
        }
        fields := fields[id := Some(key)];
        assert Meaning(lower, event) == Input(key);
        assert BurstIn(costs, fields, id) == After(before, Input(key));
        assert forall other :: other != id ==> BurstIn(costs, fields, other) == BurstIn(oldCosts, oldFields, other);
        continue;
      }
      if !IsDirect(event.kind) {
        continue;
      }
      costs := costs[id := CountIn(costs, id) + 1];
      fields := fields[id := None];
      assert BurstIn(costs, fields, id) == After(before, Direct);
      assert forall other :: other != id ==> BurstIn(costs, fields, other) == BurstIn(oldCosts, oldFields, other);
    }
    assert events[..|events|] == events;
    assert forall id :: id != "" ==> BurstIn(costs, fields, id) == BurstOf(lower, events, id);
  }

  // Properties ------------------------------------------------------------------------

  function OfSession(id: string): Event -> bool {
    (e: Event) => e.sessionId == id
  }

  lemma OwnEventsStep(front: seq<Event>, last: Event, id: string)
    ensures Filter(OfSession(id), front + [last])
      == Filter(OfSession(id), front) + if last.sessionId == id then [last] else []
  {
    FilterConcat(OfSession(id), front, [last]);
    assert [last][1..] == [];
  }

  lemma BurstAppend(lower: string -> string, events: seq<Event>, last: Event, id: string)
    ensures BurstOf(lower, events + [last], id) ==
      if last.sessionId == id then After(BurstOf(lower, events, id), Meaning(lower, last)) else BurstOf(lower, events, id)
  {
    assert (events + [last])[..|events|] == events;
  }

  /** Other sessions' events are invisible: a session's burst is that of its own
      subsequence. */
  lemma {:induction false} OwnEventsDecide(lower: string -> string, events: seq<Event>, id: string)
    ensures BurstOf(lower, events, id) == BurstOf(lower, Filter(OfSession(id), events), id)
  {
    if events != [] {
      var front, last := events[..|events| - 1], events[|events| - 1];
      OwnEventsDecide(lower, front, id);
      assert events == front + [last];
      OwnEventsStep(front, last, id);
      var own := Filter(OfSession(id), front);
      if last.sessionId == id {
        BurstAppend(lower, own, last, id);
      } else {
        assert Filter(OfSession(id), events) == own;
      }
    }
  }

  /** Two logs in which a session's own events come in the same order cost it the
      same, however the sessions are interleaved. */
  lemma InterleavingNeverCounts(lower: string -> string, a: seq<Event>, b: seq<Event>, id: string)
    requires Filter(OfSession(id), a) == Filter(OfSession(id), b)
    ensures Cost(lower, a, id) == Cost(lower, b, id)
  {
    OwnEventsDecide(lower, a, id);
    OwnEventsDecide(lower, b, id);
  }

  /** The acts of one session, in order. */
  function Acts(lower: string -> string, events: seq<Event>, id: string): seq<Act> {
    if events == [] then []
    else
      var last := events[|events| - 1];
      Acts(lower, events[..|events| - 1], id)
      + if last.sessionId == id && !Meaning(lower, last).Nothing? then [Meaning(lower, last)] else []
  }

  /** An act is new unless it repeats the edit just before it. */
  predicate IsNew(acts: seq<Act>, k: nat)
    requires k < |acts|
  {
    !acts[k].Input? || k == 0 || acts[k - 1] != acts[k]
  }

  function NewActs(acts: seq<Act>, n: nat): nat
    requires n <= |acts|
  {
    if n == 0 then 0 else NewActs(acts, n - 1) + if IsNew(acts, n - 1) then 1 else 0
  }

  function OpenField(acts: seq<Act>): Option<string> {
    if acts != [] && acts[|acts| - 1].Input? then Some(acts[|acts| - 1].field) else None
  }

  lemma {:induction false} NewActsOfPrefix(acts: seq<Act>, more: seq<Act>, n: nat)
    requires n <= |acts|
    ensures NewActs(acts + more, n) == NewActs(acts, n)
  {
    if n > 0 {
      NewActsOfPrefix(acts, more, n - 1);
    }
  }

  /** The fold counts exactly the acts that do not repeat the edit before them. */
  lemma {:induction false} CostCountsNewActs(lower: string -> string, events: seq<Event>, id: string)
    ensures var acts := Acts(lower, events, id);
      BurstOf(lower, events, id) == Burst(NewActs(acts, |acts|), OpenField(acts))
  {
    if events != [] {
      var front, last := events[..|events| - 1], events[|events| - 1];
      CostCountsNewActs(lower, front, id);
      var acts := Acts(lower, front, id);
      var act := Meaning(lower, last);
      if last.sessionId == id && !act.Nothing? {
        NewActsOfPrefix(acts, [act], |acts|);
        var all := acts + [act];
        assert Acts(lower, events, id) == all;
        assert IsNew(all, |acts|) <==> !act.Input? || acts == [] || acts[|acts| - 1] != act;
        assert NewActs(all, |all|) == NewActs(all, |acts|) + if IsNew(all, |acts|) then 1 else 0;
        assert act.Input? ==> (OpenField(acts) == Some(act.field) <==> acts != [] && acts[|acts| - 1] == act);
        assert OpenField(all) == if act.Input? then Some(act.field) else None;
        assert BurstOf(lower, events, id) == After(BurstOf(lower, front, id), act);
      } else {
        assert Acts(lower, events, id) == acts;
      }
    }
  }

  lemma {:induction false} ActsConcat(lower: string -> string, a: seq<Event>, b: seq<Event>, id: string)
    ensures Acts(lower, a + b, id) == Acts(lower, a, id) + Acts(lower, b, id)
  {
    if b == [] {
      assert a + b == a;
    } else {
      ActsConcat(lower, a, b[..|b| - 1], id);
      assert (a + b)[..|a + b| - 1] == a + b[..|b| - 1];
    }
  }

  lemma ActsOfOne(lower: string -> string, e: Event, id: string)
    ensures Acts(lower, [e], id) ==
      if e.sessionId == id && !Meaning(lower, e).Nothing? then [Meaning(lower, e)] else []
  {
    assert [e][..0] == [];
  }

  /** An event that is neither an edit nor one of the four direct actions is invisible
      wherever it comes: it costs nothing and interrupts no edit. */
  lemma OtherEventsAreInvisible(lower: string -> string, a: seq<Event>, e: Event, b: seq<Event>, id: string)
    requires e.kind !in ["input", "page.load", "navigation", "click", "submit"]
    ensures Cost(lower, a + [e] + b, id) == Cost(lower, a + b, id)
  {
    ActsOfOne(lower, e, id);
    ActsConcat(lower, a, [e], id);
    assert Acts(lower, a + [e], id) == Acts(lower, a, id);
    ActsConcat(lower, a + [e], b, id);
    ActsConcat(lower, a, b, id);
    CostIsCountNew(lower, a + [e] + b, id);
    CostIsCountNew(lower, a + b, id);
  }

  /** The second part continues the edit with which the first part ends. */
  predicate Merges(a: seq<Act>, b: seq<Act>) {
    a != [] && b != [] && b[0].Input? && a[|a| - 1] == b[0]
  }

  lemma {:induction false} NewActsConcat(a: seq<Act>, b: seq<Act>, n: nat)
    requires n <= |b|
    ensures NewActs(a + b, |a| + n) + (if n > 0 && Merges(a, b) then 1 else 0) == NewActs(a, |a|) + NewActs(b, n)
  {
    if n == 0 {
      NewActsOfPrefix(a, b, |a|);
    } else {
      NewActsConcat(a, b, n - 1);
      var all := a + b;
      var k := |a| + n - 1;
      assert all[k] == b[n - 1];
      assert NewActs(all, k + 1) == NewActs(all, k) + if IsNew(all, k) then 1 else 0;
      if n == 1 {
        assert IsNew(all, k) <==> !b[0].Input? || a == [] || a[|a| - 1] != b[0];
      } else {
        assert all[k - 1] == b[n - 2];
        assert IsNew(all, k) <==> IsNew(b, n - 1);
      }
    }
  }

  function CountNew(acts: seq<Act>): nat {
    NewActs(acts, |acts|)
  }

  lemma CostIsCountNew(lower: string -> string, events: seq<Event>, id: string)
    ensures Cost(lower, events, id) == CountNew(Acts(lower, events, id))
  {
    CostCountsNewActs(lower, events, id);
  }

  lemma SplitCountsNew(a: seq<Act>, b: seq<Act>)
    ensures CountNew(a) + CountNew(b) == CountNew(a + b) + if Merges(a, b) then 1 else 0
  {
    NewActsConcat(a, b, |b|);
  }

  /** Splitting a log costs one more exactly when the cut goes through an edit. */
  lemma SplitCostsAtMostOneMore(lower: string -> string, a: seq<Event>, b: seq<Event>, id: string)
    ensures Cost(lower, a, id) + Cost(lower, b, id)
      == Cost(lower, a + b, id) + if Merges(Acts(lower, a, id), Acts(lower, b, id)) then 1 else 0
  {
    CostIsCountNew(lower, a, id);
    CostIsCountNew(lower, b, id);
    CostIsCountNew(lower, a + b, id);
    ActsConcat(lower, a, b, id);
    SplitCountsNew(Acts(lower, a, id), Acts(lower, b, id));
  }

  /** A direct action costs one and separates its session's edits before and after it. */
  lemma DirectEventSeparates(lower: string -> string, a: seq<Event>, e: Event, b: seq<Event>)
    requires e.kind in ["page.load", "navigation", "click", "submit"]
    ensures Cost(lower, a + [e] + b, e.sessionId) == Cost(lower, a, e.sessionId) + 1 + Cost(lower, b, e.sessionId)
  {
    ActsOfOne(lower, e, e.sessionId);
    BurstAppend(lower, a, e, e.sessionId);
    ActsConcat(lower, a, [e], e.sessionId);
    SplitCostsAtMostOneMore(lower, a + [e], b, e.sessionId);
  }
}
