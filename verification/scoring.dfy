/** Weighted aggregation of score components into tracks, dimensions and the
    suite result. */
module Scoring {
  import opened Collections
  import opened CapabilityMatrix
  import opened Rounding

  datatype Status = Passed | Failed | Errored

  datatype Component = Component(
    id: string,
    capabilityIds: seq<string>,
    dimensionId: Dimension,
    status: Status,
    score: real,
    weight: real,
    required: bool)

  /** The outcome of a computation that throws in the source. */
  datatype Result<+T> = Ok(value: T) | Throws(failure: Failure)

  datatype Failure =
    | InvalidMatrix
    | GraphWithoutMatrix
    | InvalidGraph
    | InvalidOutcome
    | DuplicateOutcome
    | OutcomeOutsideGraph
    | InvalidComponent
    | DuplicateCapabilities
    | DuplicateDimensions
    | DuplicateComponents
    | UndeclaredCapability
    | UndeclaredDimension
    | WeightSum
    | InvalidResult

  predicate InUnit(x: real) {
    0.0 <= x <= 1.0
  }

  function Positive(w: real): real {
    if w >= 0.0 then w else 0.0
  }

  // Weighted means -------------------------------------------------------

  datatype Weighted = Weighted(score: real, weight: real)

  function Times(score: real, weight: real): real {
    score * weight
  }

  function TotalWeight(ws: seq<Weighted>): (total: real)
    ensures total >= 0.0
  {
    if ws == [] then 0.0 else Positive(ws[0].weight) + TotalWeight(ws[1..])
  }

  function WeightedSum(ws: seq<Weighted>): real {
    if ws == [] then 0.0 else Times(ws[0].score, Positive(ws[0].weight)) + WeightedSum(ws[1..])
  }

  function Mean(ws: seq<Weighted>): real {
    if TotalWeight(ws) == 0.0 then 0.0 else WeightedSum(ws) / TotalWeight(ws)
  }

  ghost predicate ScoresInUnit(ws: seq<Weighted>) {
    forall i :: 0 <= i < |ws| ==> InUnit(ws[i].score)
  }

  /** The same weights at the same places, no score lower. */
  ghost predicate NoScoreLower(vs: seq<Weighted>, ws: seq<Weighted>) {
    && |vs| == |ws|
    && forall i :: 0 <= i < |vs| ==> vs[i].weight == ws[i].weight && vs[i].score <= ws[i].score
  }

  lemma ScaleMonotone(a: real, b: real, w: real)
    requires a <= b && w >= 0.0
    ensures Times(a, w) <= Times(b, w)
    ensures Times(0.0, w) == 0.0 && Times(1.0, w) == w
  {
  }

  lemma {:induction false} SumWithinTotal(ws: seq<Weighted>)
    requires ScoresInUnit(ws)
    ensures 0.0 <= WeightedSum(ws) <= TotalWeight(ws)
  {
    if ws != [] {
      var w := Positive(ws[0].weight);
      SumWithinTotal(ws[1..]);
      ScaleMonotone(0.0, ws[0].score, w);
      ScaleMonotone(ws[0].score, 1.0, w);
    }
  }

  lemma {:induction false} SumMonotone(vs: seq<Weighted>, ws: seq<Weighted>)
    requires NoScoreLower(vs, ws)
    ensures TotalWeight(vs) == TotalWeight(ws) && WeightedSum(vs) <= WeightedSum(ws)
  {
    if vs != [] {
      SumMonotone(vs[1..], ws[1..]);
      ScaleMonotone(vs[0].score, ws[0].score, Positive(vs[0].weight));
    }
  }

  lemma DivideMonotone(a: real, b: real, t: real)
    requires a <= b && t > 0.0
    ensures a / t <= b / t
  {
    assert b / t - a / t == (b - a) / t;
  }

  lemma QuotientInUnit(a: real, t: real)
    requires 0.0 <= a <= t && t > 0.0
    ensures InUnit(a / t)
  {
    DivideMonotone(0.0, a, t);
    DivideMonotone(a, t, t);
    assert 0.0 / t == 0.0 && t / t == 1.0;
  }

  /** A weighted mean of scores in [0,1] stays in [0,1], whatever the weights. */
  lemma MeanInUnit(ws: seq<Weighted>)
    requires ScoresInUnit(ws)
    ensures InUnit(Mean(ws))
  {
    SumWithinTotal(ws);
    if TotalWeight(ws) != 0.0 {
      QuotientInUnit(WeightedSum(ws), TotalWeight(ws));
    }
  }

  lemma MeanMonotone(vs: seq<Weighted>, ws: seq<Weighted>)
    requires NoScoreLower(vs, ws)
    ensures Mean(vs) <= Mean(ws)
  {
    SumMonotone(vs, ws);
    if TotalWeight(vs) != 0.0 {
      DivideMonotone(WeightedSum(vs), WeightedSum(ws), TotalWeight(vs));
    }
  }

  // Aggregation of components --------------------------------------------

  datatype Aggregate = Aggregate(score: real, status: Status, componentCount: nat)

  function IsRequired(): Component -> bool {
    (c: Component) => c.required
  }

  function InCapability(id: string): Component -> bool {
    (c: Component) => id in c.capabilityIds
  }

  function InDimension(d: Dimension): Component -> bool {
    (c: Component) => c.dimensionId == d
  }

  function WeightedOf(cs: seq<Component>): seq<Weighted> {
    seq(|cs|, i requires 0 <= i < |cs| => Weighted(cs[i].score, cs[i].weight))
  }

  predicate AnyError(statuses: seq<Status>) {
    exists i :: 0 <= i < |statuses| && statuses[i] == Errored
  }

  predicate AllPassed(statuses: seq<Status>) {
    forall i :: 0 <= i < |statuses| ==> statuses[i] == Passed
  }

  function Verdict(statuses: seq<Status>, admissible: bool): Status {
    if AnyError(statuses) then Errored
    else if admissible && AllPassed(statuses) then Passed
    else Failed
  }

  function StatusesOf(cs: seq<Component>): seq<Status> {
    seq(|cs|, i requires 0 <= i < |cs| => cs[i].status)
  }

  function AggregateComponents(cs: seq<Component>, required: bool): Aggregate {
    var requiredComponents := Filter(IsRequired(), cs);
    Aggregate(
      Rounded(Mean(WeightedOf(cs))),
      Verdict(StatusesOf(requiredComponents), !required || |requiredComponents| > 0),
      |cs|)
  }

  datatype TrackResult = TrackResult(capability: Capability, result: Aggregate)

  datatype DimensionResult = DimensionResult(declared: DimensionWeight, result: Aggregate)

  datatype Breakdown = Breakdown(
    status: Status,
    score: real,
    tracks: seq<TrackResult>,
    dimensions: seq<DimensionResult>)

  function TracksOf(capabilities: seq<Capability>, cs: seq<Component>): seq<TrackResult> {
    seq(|capabilities|, i requires 0 <= i < |capabilities| =>
      TrackResult(capabilities[i],
        AggregateComponents(Filter(InCapability(capabilities[i].id), cs), capabilities[i].required)))
  }

  function DimensionsOf(dimensions: seq<DimensionWeight>, cs: seq<Component>): seq<DimensionResult> {
    seq(|dimensions|, i requires 0 <= i < |dimensions| =>
      DimensionResult(dimensions[i],
        AggregateComponents(Filter(InDimension(dimensions[i].id), cs), dimensions[i].required)))
  }

  function RequiredTracks(tracks: seq<TrackResult>): seq<Status> {
    if tracks == [] then []
    else (if tracks[0].capability.required then [tracks[0].result.status] else []) + RequiredTracks(tracks[1..])
  }

  function RequiredDimensions(dimensions: seq<DimensionResult>): seq<Status> {
    if dimensions == [] then []
    else
      (if dimensions[0].declared.required then [dimensions[0].result.status] else [])
      + RequiredDimensions(dimensions[1..])
  }

  function WeightedDimensions(dimensions: seq<DimensionResult>): seq<Weighted> {
    seq(|dimensions|, i requires 0 <= i < |dimensions| =>
      Weighted(dimensions[i].result.score, dimensions[i].declared.weight))
  }

  function BreakdownOf(capabilities: seq<Capability>, dimensions: seq<DimensionWeight>, cs: seq<Component>): Breakdown {
    var tracks := TracksOf(capabilities, cs);
    var results := DimensionsOf(dimensions, cs);
    Breakdown(
      Verdict(RequiredTracks(tracks) + RequiredDimensions(results), true),
      Rounded(Mean(WeightedDimensions(results))),
      tracks,
      results)
  }

  /** The component schema. */
  predicate ComponentOk(c: Component) {
    && c.id != "" && c.capabilityIds != [] && (forall id :: id in c.capabilityIds ==> id != "")
    && InUnit(c.score) && c.weight >= 0.0
  }

  /** The result schema: every published score lies in [0,1]. */
  predicate BreakdownOk(b: Breakdown) {
    && InUnit(b.score)
    && (forall i :: 0 <= i < |b.tracks| ==> InUnit(b.tracks[i].result.score))
    && (forall i :: 0 <= i < |b.dimensions| ==> InUnit(b.dimensions[i].result.score))
  }

  function ComponentIds(cs: seq<Component>): seq<string> {
    seq(|cs|, i requires 0 <= i < |cs| => cs[i].id)
  }

  predicate References(cs: seq<Component>, capabilityIds: set<string>) {
    forall i :: 0 <= i < |cs| ==> forall id :: id in cs[i].capabilityIds ==> id in capabilityIds
  }

  /** The checks in the order of the source; the first that fails throws. */
  function FirstFailure(capabilities: seq<Capability>, dimensions: seq<DimensionWeight>,
                        cs: seq<Component>): Option<Failure>
  {
    var capabilityIds := IdsOfCapabilities(capabilities);
    var dimensionIds := IdsOfDimensions(dimensions);
    if exists i :: 0 <= i < |cs| && !ComponentOk(cs[i]) then Some(Failure.InvalidComponent)
    else if |Elements(capabilityIds)| != |capabilityIds| then Some(Failure.DuplicateCapabilities)
    else if |Elements(dimensionIds)| != |dimensionIds| then Some(Failure.DuplicateDimensions)
    else if |Elements(ComponentIds(cs))| != |cs| then Some(Failure.DuplicateComponents)
    else if !References(cs, Elements(capabilityIds)) then Some(Failure.UndeclaredCapability)
    else if exists i :: 0 <= i < |cs| && cs[i].dimensionId !in dimensionIds then Some(Failure.UndeclaredDimension)
    else if !WeightsSumToOne(dimensions) then Some(Failure.WeightSum)
    else None
  }

  function AggregateCapabilityScores(capabilities: seq<Capability>, dimensions: seq<DimensionWeight>,
                                     cs: seq<Component>): Result<Breakdown>
  {
    var failure := FirstFailure(capabilities, dimensions, cs);
    if failure.Some? then Throws(failure.value)
    else
      var breakdown := BreakdownOf(capabilities, dimensions, cs);
      if BreakdownOk(breakdown) then Ok(breakdown) else Throws(Failure.InvalidResult)
  }

  lemma AggregateInUnit(cs: seq<Component>, required: bool)
    requires forall i :: 0 <= i < |cs| ==> InUnit(cs[i].score)
    ensures InUnit(AggregateComponents(cs, required).score)
  {
    MeanInUnit(WeightedOf(cs));
    RoundedKeepsUnitInterval(Mean(WeightedOf(cs)));
  }

  /** Valid components can only produce publishable scores. */
  lemma BreakdownStaysInUnit(capabilities: seq<Capability>, dimensions: seq<DimensionWeight>, cs: seq<Component>)
    requires forall c :: c in cs ==> InUnit(c.score)
    ensures BreakdownOk(BreakdownOf(capabilities, dimensions, cs))
  {
    var b := BreakdownOf(capabilities, dimensions, cs);
    forall i | 0 <= i < |b.tracks|
      ensures InUnit(b.tracks[i].result.score)
    {
      FilterMembers(InCapability(capabilities[i].id), cs);
      AggregateInUnit(Filter(InCapability(capabilities[i].id), cs), capabilities[i].required);
    }
    forall i | 0 <= i < |b.dimensions|
      ensures InUnit(b.dimensions[i].result.score)
    {
      FilterMembers(InDimension(dimensions[i].id), cs);
      AggregateInUnit(Filter(InDimension(dimensions[i].id), cs), dimensions[i].required);
    }
    MeanInUnit(WeightedDimensions(b.dimensions));
    RoundedKeepsUnitInterval(Mean(WeightedDimensions(b.dimensions)));
  }

  // Changing optional scores ---------------------------------------------

  /** The same components except that scores of optional ones may rise. */
  ghost predicate OptionalScoresRise(cs: seq<Component>, ds: seq<Component>) {
    && |cs| == |ds|
    && forall i :: 0 <= i < |cs| ==>
      && ds[i] == cs[i].(score := ds[i].score)
      && cs[i].score <= ds[i].score
      && (cs[i].required ==> ds[i] == cs[i])
  }

  /** A filter that cannot see scores keeps the correspondence. */
  lemma {:induction false} FilterKeepsRise(p: Component -> bool, cs: seq<Component>, ds: seq<Component>)
    requires OptionalScoresRise(cs, ds)
    requires forall c: Component, score: real {:trigger p(c.(score := score))} :: p(c.(score := score)) == p(c)
    ensures OptionalScoresRise(Filter(p, cs), Filter(p, ds))
  {
    if cs != [] {
      FilterKeepsRise(p, cs[1..], ds[1..]);
      assert p(ds[0]) == p(cs[0].(score := ds[0].score));
    }
  }

  lemma {:induction false} RequiredUntouched(cs: seq<Component>, ds: seq<Component>)
    requires OptionalScoresRise(cs, ds)
    ensures Filter(IsRequired(), cs) == Filter(IsRequired(), ds)
  {
    if cs != [] {
      RequiredUntouched(cs[1..], ds[1..]);
    }
  }

  /** The status of an aggregate depends on its required components alone. */
  lemma StatusDependsOnRequired(cs: seq<Component>, ds: seq<Component>, required: bool)
    requires Filter(IsRequired(), cs) == Filter(IsRequired(), ds)
    ensures AggregateComponents(cs, required).status == AggregateComponents(ds, required).status
  {
  }

  lemma AggregateRises(cs: seq<Component>, ds: seq<Component>, required: bool)
    requires OptionalScoresRise(cs, ds)
    ensures AggregateComponents(cs, required).status == AggregateComponents(ds, required).status
    ensures AggregateComponents(cs, required).score <= AggregateComponents(ds, required).score
  {
    RequiredUntouched(cs, ds);
    StatusDependsOnRequired(cs, ds, required);
    MeanMonotone(WeightedOf(cs), WeightedOf(ds));
    RoundedIsMonotone(Mean(WeightedOf(cs)), Mean(WeightedOf(ds)));
  }

  /** No track, no dimension and not the total has a lower score. */
  ghost predicate ScoresNotLower(b: Breakdown, c: Breakdown) {
    && b.score <= c.score
    && |b.tracks| == |c.tracks| && |b.dimensions| == |c.dimensions|
    && (forall i :: 0 <= i < |b.tracks| ==> b.tracks[i].result.score <= c.tracks[i].result.score)
    && (forall i :: 0 <= i < |b.dimensions| ==> b.dimensions[i].result.score <= c.dimensions[i].result.score)
  }

  /** Every track, every dimension and the whole have the same status. */
  ghost predicate SameStatuses(b: Breakdown, c: Breakdown) {
    && b.status == c.status
    && |b.tracks| == |c.tracks| && |b.dimensions| == |c.dimensions|
    && (forall i :: 0 <= i < |b.tracks| ==> b.tracks[i].result.status == c.tracks[i].result.status)
    && (forall i :: 0 <= i < |b.dimensions| ==> b.dimensions[i].result.status == c.dimensions[i].result.status)
  }

  /** Through component, dimension and total rounding, rising optional scores
      never lower a track, a dimension or the final score. */
  lemma BreakdownRises(capabilities: seq<Capability>, dimensions: seq<DimensionWeight>,
                       cs: seq<Component>, ds: seq<Component>)
    requires OptionalScoresRise(cs, ds)
    ensures ScoresNotLower(BreakdownOf(capabilities, dimensions, cs), BreakdownOf(capabilities, dimensions, ds))
  {
    var b, c := BreakdownOf(capabilities, dimensions, cs), BreakdownOf(capabilities, dimensions, ds);
    forall i | 0 <= i < |capabilities|
      ensures b.tracks[i].result.score <= c.tracks[i].result.score
    {
      var p := InCapability(capabilities[i].id);
      FilterKeepsRise(p, cs, ds);
      AggregateRises(Filter(p, cs), Filter(p, ds), capabilities[i].required);
    }
    forall i | 0 <= i < |dimensions|
      ensures b.dimensions[i].result.score <= c.dimensions[i].result.score
    {
      var p := InDimension(dimensions[i].id);
      FilterKeepsRise(p, cs, ds);
      AggregateRises(Filter(p, cs), Filter(p, ds), dimensions[i].required);
    }
    MeanMonotone(WeightedDimensions(b.dimensions), WeightedDimensions(c.dimensions));
    RoundedIsMonotone(Mean(WeightedDimensions(b.dimensions)), Mean(WeightedDimensions(c.dimensions)));
  }

  lemma {:induction false} FiltersCommute(p: Component -> bool, q: Component -> bool, cs: seq<Component>)
    ensures Filter(p, Filter(q, cs)) == Filter(q, Filter(p, cs))
  {
    if cs != [] {
      var rest := cs[1..];
      FiltersCommute(p, q, rest);
      assert q(cs[0]) ==> Filter(q, cs)[0] == cs[0] && Filter(q, cs)[1..] == Filter(q, rest);
      assert p(cs[0]) ==> Filter(p, cs)[0] == cs[0] && Filter(p, cs)[1..] == Filter(p, rest);
      assert !q(cs[0]) ==> Filter(q, cs) == Filter(q, rest);
      assert !p(cs[0]) ==> Filter(p, cs) == Filter(p, rest);
    }
  }

  lemma FilteredRequired(q: Component -> bool, cs: seq<Component>, ds: seq<Component>)
    requires Filter(IsRequired(), cs) == Filter(IsRequired(), ds)
    ensures Filter(IsRequired(), Filter(q, cs)) == Filter(IsRequired(), Filter(q, ds))
  {
    FiltersCommute(IsRequired(), q, cs);
    FiltersCommute(IsRequired(), q, ds);
  }

  /** Optional components, present or not, never change a status: not of a
      track, not of a dimension, not of the whole breakdown. */
  lemma StatusesIgnoreOptional(capabilities: seq<Capability>, dimensions: seq<DimensionWeight>,
                               cs: seq<Component>, ds: seq<Component>)
    requires Filter(IsRequired(), cs) == Filter(IsRequired(), ds)
    ensures SameStatuses(BreakdownOf(capabilities, dimensions, cs), BreakdownOf(capabilities, dimensions, ds))
  {
    var b, c := BreakdownOf(capabilities, dimensions, cs), BreakdownOf(capabilities, dimensions, ds);
    forall i | 0 <= i < |capabilities|
      ensures b.tracks[i].result.status == c.tracks[i].result.status
    {
      FilteredRequired(InCapability(capabilities[i].id), cs, ds);
    }
    forall i | 0 <= i < |dimensions|
      ensures b.dimensions[i].result.status == c.dimensions[i].result.status
    {
      FilteredRequired(InDimension(dimensions[i].id), cs, ds);
    }
    SameRequiredTracks(b.tracks, c.tracks);
    SameRequiredDimensions(b.dimensions, c.dimensions);
  }

  lemma {:induction false} SameRequiredTracks(a: seq<TrackResult>, b: seq<TrackResult>)
    requires |a| == |b|
    requires forall i :: 0 <= i < |a| ==> a[i].capability == b[i].capability && a[i].result.status == b[i].result.status
    ensures RequiredTracks(a) == RequiredTracks(b)
  {
    if a != [] {
      SameRequiredTracks(a[1..], b[1..]);
    }
  }

  lemma {:induction false} SameRequiredDimensions(a: seq<DimensionResult>, b: seq<DimensionResult>)
    requires |a| == |b|
    requires forall i :: 0 <= i < |a| ==> a[i].declared == b[i].declared && a[i].result.status == b[i].result.status
    ensures RequiredDimensions(a) == RequiredDimensions(b)
  {
    if a != [] {
      SameRequiredDimensions(a[1..], b[1..]);
    }
  }
}
