/** What the capability breakdown says of its components, index by index. */
module ScoreMeaning {
  import opened Collections
  import opened CapabilityMatrix
  import opened Rounding
  import opened Scoring
  import opened MeanLaws

  /** The components a track and a dimension are about. */
  function Naming(id: string): Component -> bool {
    (c: Component) => id in c.capabilityIds
  }

  function Measuring(d: Dimension): Component -> bool {
    (c: Component) => c.dimensionId == d
  }

  /** A required component of the part erred. */
  ghost predicate Erred(p: Component -> bool, cs: seq<Component>) {
    exists c :: c in cs && c.required && p(c) && c.status == Errored
  }

  /** All required components of the part passed, and a required part has one. */
  ghost predicate Met(p: Component -> bool, cs: seq<Component>, required: bool) {
    && (forall c :: c in cs && c.required && p(c) ==> c.status == Passed)
    && (required ==> exists c :: c in cs && c.required && p(c))
  }

  /** The score, status and count of a part of the components. */
  ghost predicate Summarizes(p: Component -> bool, cs: seq<Component>, required: bool, a: Aggregate) {
    && (a.status == Errored <==> Erred(p, cs))
    && (a.status == Passed <==> Met(p, cs, required))
    && a.score == Rounded(Mean(ShareOf(p, cs)))
    && a.componentCount == |Where(p, cs)|
  }

  ghost predicate TracksSumUp(capabilities: seq<Capability>, cs: seq<Component>, tracks: seq<TrackResult>) {
    && |tracks| == |capabilities|
    && forall k :: 0 <= k < |capabilities| ==>
      tracks[k].capability == capabilities[k]
      && Summarizes(Naming(capabilities[k].id), cs, capabilities[k].required, tracks[k].result)
  }

  ghost predicate DimensionsSumUp(dimensions: seq<DimensionWeight>, cs: seq<Component>, results: seq<DimensionResult>) {
    && |results| == |dimensions|
    && forall k :: 0 <= k < |dimensions| ==>
      results[k].declared == dimensions[k]
      && Summarizes(Measuring(dimensions[k].id), cs, dimensions[k].required, results[k].result)
  }

  ghost predicate RequiredPartErred(b: Breakdown) {
    || (exists k :: 0 <= k < |b.tracks| && b.tracks[k].capability.required && b.tracks[k].result.status == Errored)
    || (exists k :: 0 <= k < |b.dimensions| && b.dimensions[k].declared.required && b.dimensions[k].result.status == Errored)
  }

  ghost predicate RequiredPartsPassed(b: Breakdown) {
    && (forall k :: 0 <= k < |b.tracks| && b.tracks[k].capability.required ==> b.tracks[k].result.status == Passed)
    && (forall k :: 0 <= k < |b.dimensions| && b.dimensions[k].declared.required ==> b.dimensions[k].result.status == Passed)
  }

  function ByDimension(results: seq<DimensionResult>): seq<Weighted> {
    seq(|results|, k requires 0 <= k < |results| => Weighted(results[k].result.score, results[k].declared.weight))
  }

  ghost predicate IsBreakdown(capabilities: seq<Capability>, dimensions: seq<DimensionWeight>,
                              cs: seq<Component>, b: Breakdown)
  {
    && TracksSumUp(capabilities, cs, b.tracks)
    && DimensionsSumUp(dimensions, cs, b.dimensions)
    && (b.status == Errored <==> RequiredPartErred(b))
    && (b.status == Passed <==> RequiredPartsPassed(b))
    && b.score == Rounded(Mean(ByDimension(b.dimensions)))
  }

  lemma StatusesByMember(cs: seq<Component>)
    ensures AnyError(StatusesOf(cs)) <==> exists c :: c in cs && c.status == Errored
    ensures AllPassed(StatusesOf(cs)) <==> forall c :: c in cs ==> c.status == Passed
  {
    assert forall i :: 0 <= i < |cs| ==> StatusesOf(cs)[i] == cs[i].status;
    if c :| c in cs && c.status == Errored {
      var i :| 0 <= i < |cs| && cs[i] == c;
      assert StatusesOf(cs)[i] == Errored;
    }
  }

  lemma RequiredOfPart(p: Component -> bool, cs: seq<Component>, c: Component)
    ensures c in Filter(IsRequired(), Filter(p, cs)) <==> c in cs && c.required && p(c)
  {
    FilterMembers(p, cs);
    FilterMembers(IsRequired(), Filter(p, cs));
  }

  lemma PartStatus(p: Component -> bool, cs: seq<Component>, required: bool)
    ensures AggregateComponents(Filter(p, cs), required).status == Errored <==> Erred(p, cs)
    ensures AggregateComponents(Filter(p, cs), required).status == Passed <==> Met(p, cs, required)
  {
    var kept := Filter(IsRequired(), Filter(p, cs));
    StatusesByMember(kept);
    forall c
      ensures c in kept <==> c in cs && c.required && p(c)
    {
      RequiredOfPart(p, cs, c);
    }
    if kept != [] {
      assert kept[0] in kept;
    }
  }

  lemma PartMeaning(p: Component -> bool, cs: seq<Component>, required: bool)
    ensures Summarizes(p, cs, required, AggregateComponents(Filter(p, cs), required))
  {
    PartStatus(p, cs, required);
    FilteredMean(p, cs);
    FilterCount(p, cs);
  }

  lemma {:induction false} RequiredTracksMeaning(tracks: seq<TrackResult>)
    ensures AnyError(RequiredTracks(tracks)) <==>
      exists k :: 0 <= k < |tracks| && tracks[k].capability.required && tracks[k].result.status == Errored
    ensures AllPassed(RequiredTracks(tracks)) <==>
      forall k :: 0 <= k < |tracks| && tracks[k].capability.required ==> tracks[k].result.status == Passed
  {
    if tracks != [] {
      var rest := tracks[1..];
      RequiredTracksMeaning(rest);
      StatusesOfConcat(if tracks[0].capability.required then [tracks[0].result.status] else [], RequiredTracks(rest));
      assert forall k :: 0 <= k < |rest| ==> rest[k] == tracks[k + 1];
      assert forall k :: 0 < k < |tracks| ==> tracks[k] == rest[k - 1];
    }
  }

  lemma {:induction false} RequiredDimensionsMeaning(dimensions: seq<DimensionResult>)
    ensures AnyError(RequiredDimensions(dimensions)) <==>
      exists k :: 0 <= k < |dimensions| && dimensions[k].declared.required && dimensions[k].result.status == Errored
    ensures AllPassed(RequiredDimensions(dimensions)) <==>
      forall k :: 0 <= k < |dimensions| && dimensions[k].declared.required ==> dimensions[k].result.status == Passed
  {
    if dimensions != [] {
      var rest := dimensions[1..];
      RequiredDimensionsMeaning(rest);
      StatusesOfConcat(if dimensions[0].declared.required then [dimensions[0].result.status] else [], RequiredDimensions(rest));
      assert forall k :: 0 <= k < |rest| ==> rest[k] == dimensions[k + 1];
      assert forall k :: 0 < k < |dimensions| ==> dimensions[k] == rest[k - 1];
    }
  }

  lemma StatusesOfConcat(a: seq<Status>, b: seq<Status>)
    ensures AnyError(a + b) <==> AnyError(a) || AnyError(b)
    ensures AllPassed(a + b) <==> AllPassed(a) && AllPassed(b)
  {
    var all := a + b;
    assert forall i :: 0 <= i < |a| ==> all[i] == a[i];
    assert forall i :: 0 <= i < |b| ==> all[|a| + i] == b[i];
    assert forall i :: |a| <= i < |all| ==> all[i] == b[i - |a|];
  }

  lemma TracksMeaning(capabilities: seq<Capability>, cs: seq<Component>)
    ensures TracksSumUp(capabilities, cs, TracksOf(capabilities, cs))
  {
    forall k | 0 <= k < |capabilities|
      ensures Summarizes(Naming(capabilities[k].id), cs, capabilities[k].required, TracksOf(capabilities, cs)[k].result)
    {
      FilterSame(Naming(capabilities[k].id), InCapability(capabilities[k].id), cs);
      PartMeaning(Naming(capabilities[k].id), cs, capabilities[k].required);
    }
  }

  lemma DimensionsMeaning(dimensions: seq<DimensionWeight>, cs: seq<Component>)
    ensures DimensionsSumUp(dimensions, cs, DimensionsOf(dimensions, cs))
  {
    forall k | 0 <= k < |dimensions|
      ensures Summarizes(Measuring(dimensions[k].id), cs, dimensions[k].required, DimensionsOf(dimensions, cs)[k].result)
    {
      FilterSame(Measuring(dimensions[k].id), InDimension(dimensions[k].id), cs);
      PartMeaning(Measuring(dimensions[k].id), cs, dimensions[k].required);
    }
  }

  lemma WholeMeaning(tracks: seq<TrackResult>, results: seq<DimensionResult>)
    ensures AnyError(RequiredTracks(tracks) + RequiredDimensions(results)) <==>
      RequiredPartErred(Breakdown(Passed, 0.0, tracks, results))
    ensures AllPassed(RequiredTracks(tracks) + RequiredDimensions(results)) <==>
      RequiredPartsPassed(Breakdown(Passed, 0.0, tracks, results))
  {
    RequiredTracksMeaning(tracks);
    RequiredDimensionsMeaning(results);
    StatusesOfConcat(RequiredTracks(tracks), RequiredDimensions(results));
  }

  /** Statuses, scores and counts of the whole breakdown: a track sums up the
      components that name it, a dimension those that measure it, and the whole the
      required tracks and dimensions, weighted by dimension. */
  lemma BreakdownMeaning(capabilities: seq<Capability>, dimensions: seq<DimensionWeight>, cs: seq<Component>)
    ensures IsBreakdown(capabilities, dimensions, cs, BreakdownOf(capabilities, dimensions, cs))
  {
    var b := BreakdownOf(capabilities, dimensions, cs);
    TracksMeaning(capabilities, cs);
    DimensionsMeaning(dimensions, cs);
    WholeMeaning(b.tracks, b.dimensions);
    assert ByDimension(b.dimensions) == WeightedDimensions(b.dimensions);
  }

  // What the aggregation refuses ----------------------------------------------------------

  lemma {:induction false} DeclaredWeightLaws(a: seq<DimensionWeight>, b: seq<DimensionWeight>)
    ensures DeclaredWeight([]) == 0.0
    ensures forall d :: DeclaredWeight([d]) == d.weight
    ensures DeclaredWeight(a + b) == DeclaredWeight(a) + DeclaredWeight(b)
  {
    forall d: DimensionWeight
      ensures DeclaredWeight([d]) == d.weight
    {
      assert [d][1..] == [];
    }
    if a == [] {
      assert a + b == b;
    } else {
      assert (a + b)[1..] == a[1..] + b;
      DeclaredWeightLaws(a[1..], b);
    }
  }

  /** The order of the checks. */
  function Rank(f: Failure): nat {
    match f
    case InvalidComponent => 0
    case DuplicateCapabilities => 1
    case DuplicateDimensions => 2
    case DuplicateComponents => 3
    case UndeclaredCapability => 4
    case UndeclaredDimension => 5
    case WeightSum => 6
    case _ => 7
  }

  /** What each check refuses. */
  ghost predicate Broken(capabilities: seq<Capability>, dimensions: seq<DimensionWeight>, cs: seq<Component>, f: Failure) {
    match f
    case InvalidComponent =>
      exists c :: c in cs
        && (c.id == "" || c.capabilityIds == [] || "" in c.capabilityIds || c.score < 0.0 || c.score > 1.0 || c.weight < 0.0)
    case DuplicateCapabilities => exists i, j :: 0 <= i < j < |capabilities| && capabilities[i].id == capabilities[j].id
    case DuplicateDimensions => exists i, j :: 0 <= i < j < |dimensions| && dimensions[i].id == dimensions[j].id
    case DuplicateComponents => exists i, j :: 0 <= i < j < |cs| && cs[i].id == cs[j].id
    case UndeclaredCapability =>
      exists i, id :: 0 <= i < |cs| && id in cs[i].capabilityIds
        && forall k :: 0 <= k < |capabilities| ==> capabilities[k].id != id
    case UndeclaredDimension =>
      exists i :: 0 <= i < |cs| && forall k :: 0 <= k < |dimensions| ==> dimensions[k].id != cs[i].dimensionId
    case WeightSum => DeclaredWeight(dimensions) - 1.0 > 0.000001 || 1.0 - DeclaredWeight(dimensions) > 0.000001
    case _ => false
  }

  ghost predicate FirstBroken(capabilities: seq<Capability>, dimensions: seq<DimensionWeight>, cs: seq<Component>, f: Failure) {
    && Broken(capabilities, dimensions, cs, f)
    && forall h :: Broken(capabilities, dimensions, cs, h) ==> Rank(f) <= Rank(h)
  }

  lemma CapabilitiesDistinct(capabilities: seq<Capability>)
    ensures |Elements(IdsOfCapabilities(capabilities))| == |IdsOfCapabilities(capabilities)| <==>
      forall i, j :: 0 <= i < j < |capabilities| ==> capabilities[i].id != capabilities[j].id
  {
    var ids := IdsOfCapabilities(capabilities);
    SetSizeDecidesDistinct(ids);
    assert forall i :: 0 <= i < |capabilities| ==> ids[i] == capabilities[i].id;
  }

  lemma DimensionsDistinct(dimensions: seq<DimensionWeight>)
    ensures |Elements(IdsOfDimensions(dimensions))| == |IdsOfDimensions(dimensions)| <==>
      forall i, j :: 0 <= i < j < |dimensions| ==> dimensions[i].id != dimensions[j].id
  {
    var ids := IdsOfDimensions(dimensions);
    SetSizeDecidesDistinct(ids);
    assert forall i :: 0 <= i < |dimensions| ==> ids[i] == dimensions[i].id;
  }

  lemma ComponentsDistinct(cs: seq<Component>)
    ensures |Elements(ComponentIds(cs))| == |cs| <==> forall i, j :: 0 <= i < j < |cs| ==> cs[i].id != cs[j].id
  {
    var ids := ComponentIds(cs);
    SetSizeDecidesDistinct(ids);
    assert forall i :: 0 <= i < |cs| ==> ids[i] == cs[i].id;
  }

  lemma DeclaredMeaning(capabilities: seq<Capability>, dimensions: seq<DimensionWeight>)
    ensures forall id :: id in IdsOfCapabilities(capabilities) <==> exists k :: 0 <= k < |capabilities| && capabilities[k].id == id
    ensures forall d :: d in IdsOfDimensions(dimensions) <==> exists k :: 0 <= k < |dimensions| && dimensions[k].id == d
  {
    assert forall k :: 0 <= k < |capabilities| ==> IdsOfCapabilities(capabilities)[k] == capabilities[k].id;
    assert forall k :: 0 <= k < |dimensions| ==> IdsOfDimensions(dimensions)[k] == dimensions[k].id;
  }

  lemma ReferencesMeaning(capabilities: seq<Capability>, dimensions: seq<DimensionWeight>, cs: seq<Component>)
    ensures References(cs, Elements(IdsOfCapabilities(capabilities))) <==>
      !Broken(capabilities, dimensions, cs, UndeclaredCapability)
  {
    DeclaredMeaning(capabilities, dimensions);
  }

  lemma UndeclaredDimensionMeaning(capabilities: seq<Capability>, dimensions: seq<DimensionWeight>, cs: seq<Component>)
    ensures (exists i :: 0 <= i < |cs| && cs[i].dimensionId !in IdsOfDimensions(dimensions)) <==>
      Broken(capabilities, dimensions, cs, Failure.UndeclaredDimension)
  {
    DeclaredMeaning(capabilities, dimensions);
    if i :| 0 <= i < |cs| && cs[i].dimensionId !in IdsOfDimensions(dimensions) {
      assert forall k :: 0 <= k < |dimensions| ==> dimensions[k].id != cs[i].dimensionId;
    }
    if Broken(capabilities, dimensions, cs, Failure.UndeclaredDimension) {
      var i :| 0 <= i < |cs| && forall k :: 0 <= k < |dimensions| ==> dimensions[k].id != cs[i].dimensionId;
      assert cs[i].dimensionId !in IdsOfDimensions(dimensions);
    }
  }

  lemma InvalidComponentMeaning(capabilities: seq<Capability>, dimensions: seq<DimensionWeight>, cs: seq<Component>)
    ensures (exists i :: 0 <= i < |cs| && !ComponentOk(cs[i])) <==>
      Broken(capabilities, dimensions, cs, Failure.InvalidComponent)
  {
    if i :| 0 <= i < |cs| && !ComponentOk(cs[i]) {
      assert cs[i] in cs;
    }
  }

  /** The first of the checks that says no. */
  function FirstOf(invalid: bool, capabilities: bool, dimensions: bool, components: bool, capability: bool,
                   dimension: bool, sum: bool): Option<Failure>
  {
    if invalid then Some(Failure.InvalidComponent)
    else if capabilities then Some(Failure.DuplicateCapabilities)
    else if dimensions then Some(Failure.DuplicateDimensions)
    else if components then Some(Failure.DuplicateComponents)
    else if capability then Some(Failure.UndeclaredCapability)
    else if dimension then Some(Failure.UndeclaredDimension)
    else if sum then Some(Failure.WeightSum)
    else None
  }

  lemma FirstFailureIs(capabilities: seq<Capability>, dimensions: seq<DimensionWeight>, cs: seq<Component>)
    ensures FirstFailure(capabilities, dimensions, cs) == FirstOf(
      Broken(capabilities, dimensions, cs, Failure.InvalidComponent),
      Broken(capabilities, dimensions, cs, Failure.DuplicateCapabilities),
      Broken(capabilities, dimensions, cs, Failure.DuplicateDimensions),
      Broken(capabilities, dimensions, cs, Failure.DuplicateComponents),
      Broken(capabilities, dimensions, cs, Failure.UndeclaredCapability),
      Broken(capabilities, dimensions, cs, Failure.UndeclaredDimension),
      Broken(capabilities, dimensions, cs, Failure.WeightSum))
  {
    CapabilitiesDistinct(capabilities);
    DimensionsDistinct(dimensions);
    ComponentsDistinct(cs);
    InvalidComponentMeaning(capabilities, dimensions, cs);
    ReferencesMeaning(capabilities, dimensions, cs);
    UndeclaredDimensionMeaning(capabilities, dimensions, cs);
  }

  lemma BrokenIsRanked(capabilities: seq<Capability>, dimensions: seq<DimensionWeight>, cs: seq<Component>, f: Failure)
    requires Broken(capabilities, dimensions, cs, f)
    ensures Rank(f) < 7
  {
  }

  lemma FirstFailureMeaning(capabilities: seq<Capability>, dimensions: seq<DimensionWeight>, cs: seq<Component>)
    ensures match FirstFailure(capabilities, dimensions, cs)
      case None => forall f :: !Broken(capabilities, dimensions, cs, f)
      case Some(f) => FirstBroken(capabilities, dimensions, cs, f)
  {
    FirstFailureIs(capabilities, dimensions, cs);
    forall f | Broken(capabilities, dimensions, cs, f)
      ensures Rank(f) < 7
    {
      BrokenIsRanked(capabilities, dimensions, cs, f);
    }
  }

  /** The aggregation throws exactly for the first check that is broken, and returns
      the breakdown exactly when none is. */
  lemma AggregationMeaning(capabilities: seq<Capability>, dimensions: seq<DimensionWeight>, cs: seq<Component>)
    ensures match AggregateCapabilityScores(capabilities, dimensions, cs)
      case Ok(b) => IsBreakdown(capabilities, dimensions, cs, b) && forall f :: !Broken(capabilities, dimensions, cs, f)
      case Throws(f) => FirstBroken(capabilities, dimensions, cs, f)
  {
    FirstFailureMeaning(capabilities, dimensions, cs);
    BreakdownMeaning(capabilities, dimensions, cs);
    if FirstFailure(capabilities, dimensions, cs).None? {
      assert !Broken(capabilities, dimensions, cs, Failure.InvalidComponent);
      BreakdownStaysInUnit(capabilities, dimensions, cs);
    }
  }
}
