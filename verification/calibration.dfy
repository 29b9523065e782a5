/** The calibration report: two cohorts of observations summarized and compared. */
module Calibration {
  import opened Collections
  import opened Confidence
  import opened Scoring
  import opened Text
  import Rounding

  /** The two intervals a report is made of: of successes in a sample, and of the
      mean of values within bounds. */
  datatype Statistics = Statistics(
    rate: (nat, nat) -> Interval,
    mean: (seq<real>, Option<real>, Option<real>) -> Interval)

  /** The intervals the source computes. */
  function WilsonAndMean(sqrt: real -> real): Statistics {
    Statistics(
      (successes: nat, sampleSize: nat) => WilsonInterval(sqrt, successes, sampleSize),
      (values: seq<real>, min: Option<real>, max: Option<real>) => MeanInterval(sqrt, values, min, max))
  }

  datatype TrackObservation = TrackObservation(id: string, status: Status, score: real)

  datatype Observation = Observation(
    revision: string,
    family: string,
    seed: string,
    status: Status,
    completionMs: real,
    actionCost: real,
    tracks: seq<TrackObservation>)

  datatype TrackSummary = TrackSummary(id: string, score: Interval, passRate: Interval)

  datatype FamilySummary = FamilySummary(id: string, runCount: nat, passRate: Interval)

  datatype Cohort = Cohort(
    revision: string,
    runCount: nat,
    familyCount: nat,
    passed: nat,
    failed: nat,
    errored: nat,
    passRate: Interval,
    completionMs: Interval,
    actionCost: Interval,
    tracks: seq<TrackSummary>,
    families: seq<FamilySummary>)

  datatype Reason = TooFewFamilies | TooFewSeeds(candidate: bool, family: string)

  datatype Report = Report(
    baseline: Cohort,
    candidate: Cohort,
    minimumFamilies: int,
    minimumSeeds: int,
    common: seq<string>,
    reasons: seq<Reason>,
    measurablyHarder: bool,
    passRateDifference: real)

  datatype Refusal = SameRevision | InvalidObservation | DuplicateIdentity | MissingCohort

  datatype Answer = Accepted(report: Report) | Refused(refusal: Refusal)

  // Observations --------------------------------------------------------------------------

  function TrackIds(tracks: seq<TrackObservation>): seq<string> {
    seq(|tracks|, i requires 0 <= i < |tracks| => tracks[i].id)
  }

  /** The observation schema. */
  predicate ObservationOk(o: Observation) {
    && o.revision != "" && o.family != "" && o.seed != ""
    && o.completionMs >= 0.0 && o.actionCost >= 0.0
    && o.tracks != []
    && (forall i :: 0 <= i < |o.tracks| ==> o.tracks[i].id != "" && InUnit(o.tracks[i].score))
    && |Elements(TrackIds(o.tracks))| == |o.tracks|
  }

  predicate AllOk(observations: seq<Observation>) {
    forall i :: 0 <= i < |observations| ==> ObservationOk(observations[i])
  }

  function Identity(o: Observation): string {
    o.revision + ":" + (o.family + ":" + o.seed)
  }

  function Identities(observations: seq<Observation>): seq<string> {
    seq(|observations|, i requires 0 <= i < |observations| => Identity(observations[i]))
  }

  predicate SameTriple(a: Observation, b: Observation) {
    a.revision == b.revision && a.family == b.family && a.seed == b.seed
  }

  // Summaries --------------------------------------------------------------------------------

  function IsPassed(): Observation -> bool {
    (o: Observation) => o.status.Passed?
  }

  function IsFailed(): Observation -> bool {
    (o: Observation) => o.status.Failed?
  }

  function IsErrored(): Observation -> bool {
    (o: Observation) => o.status.Errored?
  }

  function OfFamily(family: string): Observation -> bool {
    (o: Observation) => o.family == family
  }

  function OfRevision(revision: string): Observation -> bool {
    (o: Observation) => o.revision == revision
  }

  function TrackNamed(id: string): TrackObservation -> bool {
    (t: TrackObservation) => t.id == id
  }

  function TrackPassed(): TrackObservation -> bool {
    (t: TrackObservation) => t.status.Passed?
  }

  function Families(runs: seq<Observation>): seq<string> {
    SortedUnique(seq(|runs|, i requires 0 <= i < |runs| => runs[i].family))
  }

  function AllTracks(runs: seq<Observation>): seq<TrackObservation> {
    if runs == [] then [] else runs[0].tracks + AllTracks(runs[1..])
  }

  function TracksNamed(runs: seq<Observation>, id: string): seq<TrackObservation> {
    if runs == [] then [] else Filter(TrackNamed(id), runs[0].tracks) + TracksNamed(runs[1..], id)
  }

  function Scores(tracks: seq<TrackObservation>): seq<real> {
    seq(|tracks|, i requires 0 <= i < |tracks| => tracks[i].score)
  }

  function SummarizeTrack(stats: Statistics, runs: seq<Observation>, id: string): TrackSummary {
    var tracks := TracksNamed(runs, id);
    TrackSummary(id,
      stats.mean(Scores(tracks), Some(0.0), Some(1.0)),
      stats.rate(|Filter(TrackPassed(), tracks)|, |tracks|))
  }

  function SummarizeFamily(stats: Statistics, runs: seq<Observation>, id: string): FamilySummary {
    var own := Filter(OfFamily(id), runs);
    FamilySummary(id, |own|, stats.rate(|Filter(IsPassed(), own)|, |own|))
  }

  function SummarizeCohort(stats: Statistics, revision: string, runs: seq<Observation>): Cohort {
    var trackIds := SortedUnique(TrackIds(AllTracks(runs)));
    var families := Families(runs);
    Cohort(revision, |runs|, |families|,
      |Filter(IsPassed(), runs)|, |Filter(IsFailed(), runs)|, |Filter(IsErrored(), runs)|,
      stats.rate(|Filter(IsPassed(), runs)|, |runs|),
      stats.mean(seq(|runs|, i requires 0 <= i < |runs| => runs[i].completionMs), Some(0.0), None),
      stats.mean(seq(|runs|, i requires 0 <= i < |runs| => runs[i].actionCost), Some(0.0), None),
      seq(|trackIds|, i requires 0 <= i < |trackIds| => SummarizeTrack(stats, runs, trackIds[i])),
      seq(|families|, i requires 0 <= i < |families| => SummarizeFamily(stats, runs, families[i])))
  }

  // The report ------------------------------------------------------------------------------------

  function Seeds(runs: seq<Observation>, family: string): set<string> {
    set o | o in Filter(OfFamily(family), runs) :: o.seed
  }

  function Common(baseline: seq<Observation>, candidate: seq<Observation>): seq<string> {
    Filter((f: string) => f in Families(candidate), Families(baseline))
  }

  /** The inner loop runs over the baseline, then the candidate. */
  function FamilyReasons(baseline: seq<Observation>, candidate: seq<Observation>, family: string, minimum: int,
                         sides: nat): seq<Reason>
  {
    if sides == 0 then []
    else
      var runs := if sides == 1 then baseline else candidate;
      FamilyReasons(baseline, candidate, family, minimum, sides - 1)
      + if |Seeds(runs, family)| < minimum then [TooFewSeeds(sides == 2, family)] else []
  }

  function SeedReasons(baseline: seq<Observation>, candidate: seq<Observation>, families: seq<string>, minimum: int): seq<Reason> {
    if families == [] then []
    else SeedReasons(baseline, candidate, families[..|families| - 1], minimum)
         + FamilyReasons(baseline, candidate, families[|families| - 1], minimum, 2)
  }

  function Reasons(baseline: seq<Observation>, candidate: seq<Observation>, minimumFamilies: int, minimumSeeds: int): seq<Reason> {
    var common := Common(baseline, candidate);
    (if |common| < minimumFamilies then [TooFewFamilies] else [])
    + SeedReasons(baseline, candidate, common, minimumSeeds)
  }

  function Compare(baseline: Cohort, candidate: Cohort, minimumFamilies: int, minimumSeeds: int,
                   common: seq<string>, reasons: seq<Reason>): Report
  {
    Report(baseline, candidate, minimumFamilies, minimumSeeds, common, reasons,
      reasons == [] && candidate.passRate.upper < baseline.passRate.lower,
      Rounding.Rounded(candidate.passRate.estimate - baseline.passRate.estimate))
  }

  const DEFAULT_FAMILIES: int := 3
  const DEFAULT_SEEDS: int := 2

  function Calibrate(stats: Statistics, baselineRevision: string, candidateRevision: string,
                     observations: seq<Observation>, minimumFamilies: Option<int>, minimumSeeds: Option<int>): Answer
  {
    var baselineRuns := Filter(OfRevision(baselineRevision), observations);
    var candidateRuns := Filter(OfRevision(candidateRevision), observations);
    if baselineRevision == candidateRevision then Refused(SameRevision)
    else if !AllOk(observations) then Refused(InvalidObservation)
    else if |Elements(Identities(observations))| != |observations| then Refused(DuplicateIdentity)
    else if baselineRuns == [] || candidateRuns == [] then Refused(MissingCohort)
    else
      var families := if minimumFamilies.Some? then minimumFamilies.value else DEFAULT_FAMILIES;
      var seeds := if minimumSeeds.Some? then minimumSeeds.value else DEFAULT_SEEDS;
      Accepted(Compare(
        SummarizeCohort(stats, baselineRevision, baselineRuns), SummarizeCohort(stats, candidateRevision, candidateRuns),
        families, seeds, Common(baselineRuns, candidateRuns), Reasons(baselineRuns, candidateRuns, families, seeds)))
  }

  lemma SeedReasonsStep(baseline: seq<Observation>, candidate: seq<Observation>, families: seq<string>, n: nat, minimum: int)
    requires n < |families|
    ensures SeedReasons(baseline, candidate, families[..n + 1], minimum)
      == SeedReasons(baseline, candidate, families[..n], minimum)
         + FamilyReasons(baseline, candidate, families[n], minimum, 2)
  {
    assert families[..n + 1][..n] == families[..n];
  }

  /** The inner loop of the reasons: one family, both cohorts. */
  method CollectFamilyReasons(baseline: seq<Observation>, candidate: seq<Observation>, family: string, minimum: int)
    returns (reasons: seq<Reason>)
    ensures reasons == FamilyReasons(baseline, candidate, family, minimum, 2)
  {
    reasons := [];
    for side := 0 to 2
      invariant reasons == FamilyReasons(baseline, candidate, family, minimum, side)
    {
      var runs := if side == 0 then baseline else candidate;
      if |Seeds(runs, family)| < minimum {
        reasons := reasons + [TooFewSeeds(side == 1, family)];
      }
    }
  }

  /** The outer loop over the common families. */
  method CollectSeedReasons(baseline: seq<Observation>, candidate: seq<Observation>, families: seq<string>, minimum: int)
    returns (reasons: seq<Reason>)
    ensures reasons == SeedReasons(baseline, candidate, families, minimum)
  {
    reasons := [];
    for n := 0 to |families|
      invariant reasons == SeedReasons(baseline, candidate, families[..n], minimum)
    {
      var more := CollectFamilyReasons(baseline, candidate, families[n], minimum);
      reasons := reasons + more;
      SeedReasonsStep(baseline, candidate, families, n, minimum);
    }
    assert families[..|families|] == families;
  }

  method CollectReasons(baseline: seq<Observation>, candidate: seq<Observation>, minimumFamilies: int, minimumSeeds: int)
    returns (reasons: seq<Reason>)
    ensures reasons == Reasons(baseline, candidate, minimumFamilies, minimumSeeds)
  {
    var common := Common(baseline, candidate);
    reasons := [];
    if |common| < minimumFamilies {
      reasons := [TooFewFamilies];
    }
    var more := CollectSeedReasons(baseline, candidate, common, minimumSeeds);
    reasons := reasons + more;
  }

  method BuildCalibrationReport(stats: Statistics, baselineRevision: string, candidateRevision: string,
                                observations: seq<Observation>, minimumFamilies: Option<int>, minimumSeeds: Option<int>)
    returns (answer: Answer)
    ensures answer == Calibrate(stats, baselineRevision, candidateRevision, observations, minimumFamilies, minimumSeeds)
  {
    if baselineRevision == candidateRevision {
      return Refused(SameRevision);
    }
    if !AllOk(observations) {
      return Refused(InvalidObservation);
    }
    if |Elements(Identities(observations))| != |observations| {
      return Refused(DuplicateIdentity);
    }
    var baselineRuns := Filter(OfRevision(baselineRevision), observations);
    var candidateRuns := Filter(OfRevision(candidateRevision), observations);
    if baselineRuns == [] || candidateRuns == [] {
      return Refused(MissingCohort);
    }
    var families := if minimumFamilies.Some? then minimumFamilies.value else DEFAULT_FAMILIES;
    var seeds := if minimumSeeds.Some? then minimumSeeds.value else DEFAULT_SEEDS;
    var reasons := CollectReasons(baselineRuns, candidateRuns, families, seeds);
    var baseline := SummarizeCohort(stats, baselineRevision, baselineRuns);
    var candidate := SummarizeCohort(stats, candidateRevision, candidateRuns);
    answer := Accepted(Compare(baseline, candidate, families, seeds, Common(baselineRuns, candidateRuns), reasons));
  }
}
