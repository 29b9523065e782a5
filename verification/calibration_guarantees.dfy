/** What a calibration report promises. */
module CalibrationGuarantees {
  import opened Collections
  import opened Confidence
  import opened Calibration
  import opened Scoring
  import opened Text
  import opened Rounding

  // Readiness -------------------------------------------------------------------------------

  lemma {:induction false} SeedReasonsMeaning(baseline: seq<Observation>, candidate: seq<Observation>,
                                              families: seq<string>, minimum: int)
    ensures SeedReasons(baseline, candidate, families, minimum) == [] <==>
      forall f :: f in families ==> |Seeds(baseline, f)| >= minimum && |Seeds(candidate, f)| >= minimum
  {
    if families != [] {
      var front, last := families[..|families| - 1], families[|families| - 1];
      SeedReasonsMeaning(baseline, candidate, front, minimum);
      assert forall f :: f in families <==> f in front || f == last;
      assert FamilyReasons(baseline, candidate, last, minimum, 2) == [] <==>
        (|Seeds(baseline, last)| >= minimum && |Seeds(candidate, last)| >= minimum) by {
        assert FamilyReasons(baseline, candidate, last, minimum, 2) ==
          FamilyReasons(baseline, candidate, last, minimum, 1)
          + if |Seeds(candidate, last)| < minimum then [TooFewSeeds(true, last)] else [];
        assert FamilyReasons(baseline, candidate, last, minimum, 1) ==
          if |Seeds(baseline, last)| < minimum then [TooFewSeeds(false, last)] else [];
      }
    }
  }

  predicate HasFamily(runs: seq<Observation>, family: string) {
    exists i :: 0 <= i < |runs| && runs[i].family == family
  }

  lemma FamiliesMeaning(runs: seq<Observation>, family: string)
    ensures family in Families(runs) <==> HasFamily(runs, family)
  {
    var names := seq(|runs|, i requires 0 <= i < |runs| => runs[i].family);
    SortedUniqueMeaning(names);
    if HasFamily(runs, family) {
      var i :| 0 <= i < |runs| && runs[i].family == family;
      assert names[i] == family;
    }
    if family in names {
      var i :| 0 <= i < |names| && names[i] == family;
      assert runs[i].family == family;
    }
  }

  ghost predicate EnoughIn(baseline: seq<Observation>, candidate: seq<Observation>, minimumFamilies: int, minimumSeeds: int) {
    && |Common(baseline, candidate)| >= minimumFamilies
    && forall f :: HasFamily(baseline, f) && HasFamily(candidate, f) ==>
      |Seeds(baseline, f)| >= minimumSeeds && |Seeds(candidate, f)| >= minimumSeeds
  }

  /** A report is ready exactly when enough families occur in both cohorts and each
      of them has enough seeds in both. */
  lemma ReadyMeaning(baseline: seq<Observation>, candidate: seq<Observation>, minimumFamilies: int, minimumSeeds: int)
    ensures Reasons(baseline, candidate, minimumFamilies, minimumSeeds) == []
      <==> EnoughIn(baseline, candidate, minimumFamilies, minimumSeeds)
  {
    var common := Common(baseline, candidate);
    SeedReasonsMeaning(baseline, candidate, common, minimumSeeds);
    forall f
      ensures f in common <==> HasFamily(baseline, f) && HasFamily(candidate, f)
    {
      CommonMeaning(baseline, candidate, f);
    }
  }

  ghost predicate HasRevision(observations: seq<Observation>, revision: string) {
    exists o :: o in observations && o.revision == revision
  }

  lemma CohortExists(observations: seq<Observation>, revision: string)
    ensures Filter(OfRevision(revision), observations) != [] <==> HasRevision(observations, revision)
  {
    var runs := Filter(OfRevision(revision), observations);
    FilterMembers(OfRevision(revision), observations);
    if runs != [] {
      assert runs[0] in runs;
    }
  }

  /** Observations are accepted exactly when the revisions differ, every observation
      is well formed, no identity key repeats and both revisions occur; the report is
      then ready exactly when the two cohorts have enough families and seeds. */
  lemma AnswerMeaning(stats: Statistics, base: string, cand: string, observations: seq<Observation>,
                      minimumFamilies: Option<int>, minimumSeeds: Option<int>)
    ensures var answer := Calibrate(stats, base, cand, observations, minimumFamilies, minimumSeeds);
      && (answer.Accepted? <==>
           && base != cand && AllOk(observations) && Distinct(Identities(observations))
           && HasRevision(observations, base) && HasRevision(observations, cand))
      && (answer.Accepted? ==> (answer.report.reasons == [] <==>
           EnoughIn(Filter(OfRevision(base), observations), Filter(OfRevision(cand), observations),
             answer.report.minimumFamilies, answer.report.minimumSeeds)))
  {
    SetSizeDecidesDistinct(Identities(observations));
    CohortExists(observations, base);
    CohortExists(observations, cand);
    var answer := Calibrate(stats, base, cand, observations, minimumFamilies, minimumSeeds);
    if answer.Accepted? {
      ReadyMeaning(Filter(OfRevision(base), observations), Filter(OfRevision(cand), observations),
        answer.report.minimumFamilies, answer.report.minimumSeeds);
    }
  }

  lemma CommonMeaning(baseline: seq<Observation>, candidate: seq<Observation>, f: string)
    ensures f in Common(baseline, candidate) <==> HasFamily(baseline, f) && HasFamily(candidate, f)
  {
    FilterMembers((g: string) => g in Families(candidate), Families(baseline));
    FamiliesMeaning(baseline, f);
    FamiliesMeaning(candidate, f);
  }

  // Identities ---------------------------------------------------------------------------------

  lemma IdentitiesDistinct(observations: seq<Observation>)
    requires |Elements(Identities(observations))| == |observations|
    ensures forall i, j :: 0 <= i < j < |observations| ==> !SameTriple(observations[i], observations[j])
  {
    SetSizeDecidesDistinct(Identities(observations));
    forall i, j | 0 <= i < j < |observations|
      ensures !SameTriple(observations[i], observations[j])
    {
      assert Identities(observations)[i] != Identities(observations)[j];
    }
  }

  /** The joined key of a revision and a family. */
  function Prefix(revision: string, family: string): string {
    revision + ":" + family + ":"
  }

  lemma IdentityIsPrefixed(o: Observation)
    ensures Identity(o) == Prefix(o.revision, o.family) + o.seed
  {
  }

  /** Some observations of two cohort cells differ and still share a key. */
  ghost predicate CellsCollide(a: Observation, b: Observation) {
    exists s, t :: SeedsCollide(a, s, b, t)
  }

  predicate SeedsCollide(a: Observation, s: string, b: Observation, t: string) {
    && s != "" && t != ""
    && Identity(a.(seed := s)) == Identity(b.(seed := t))
    && !SameTriple(a.(seed := s), b.(seed := t))
  }

  predicate SameCell(a: Observation, b: Observation) {
    a.revision == b.revision && a.family == b.family
  }

  /** Distinct observations of two cohort cells can be refused as duplicates exactly
      when the cells differ and one joined prefix starts the other; two observations
      of one cell share a key only if they repeat the seed. */
  lemma IdentitiesCollideIffPrefix(a: Observation, b: Observation)
    ensures CellsCollide(a, b) <==>
      && !SameCell(a, b)
      && (Prefix(a.revision, a.family) <= Prefix(b.revision, b.family)
          || Prefix(b.revision, b.family) <= Prefix(a.revision, a.family))
  {
    var p, q := Prefix(a.revision, a.family), Prefix(b.revision, b.family);
    PrefixesMeetIffOneStartsTheOther(p, q);
    if CellsCollide(a, b) {
      var s, t :| SeedsCollide(a, s, b, t);
      IdentityIsPrefixed(a.(seed := s));
      IdentityIsPrefixed(b.(seed := t));
      assert Meet(p, s, q, t);
      PrefixCancels(p, s, t);
    }
    if !SameCell(a, b) && (p <= q || q <= p) {
      var s, t :| Meet(p, s, q, t);
      IdentityIsPrefixed(a.(seed := s));
      IdentityIsPrefixed(b.(seed := t));
      assert SeedsCollide(a, s, b, t);
    }
  }

  /** Without colons in revision and family the key is exact. */
  lemma IdentityExactWithoutColons(a: Observation, b: Observation)
    requires ':' !in a.revision && ':' !in b.revision && ':' !in a.family && ':' !in b.family
    ensures Identity(a) == Identity(b) <==> SameTriple(a, b)
  {
    if Identity(a) == Identity(b) {
      SplitAtFirstColon(a.revision, a.family + ":" + a.seed, b.revision, b.family + ":" + b.seed);
      SplitAtFirstColon(a.family, a.seed, b.family, b.seed);
    }
  }

  // Seeds -------------------------------------------------------------------------------------------

  ghost predicate NoTwins(runs: seq<Observation>) {
    forall i, j :: 0 <= i < j < |runs| ==> runs[i].family != runs[j].family || runs[i].seed != runs[j].seed
  }

  lemma {:induction false} SeedCountIsRunCount(runs: seq<Observation>, family: string)
    requires NoTwins(runs)
    ensures |Seeds(runs, family)| == |Filter(OfFamily(family), runs)|
  {
    if runs != [] {
      var rest := runs[1..];
      assert NoTwins(rest) by {
        assert forall i :: 0 <= i < |rest| ==> rest[i] == runs[i + 1];
      }
      SeedCountIsRunCount(rest, family);
      FilterMembers(OfFamily(family), rest);
      if runs[0].family == family {
        assert Seeds(runs, family) == Seeds(rest, family) + {runs[0].seed};
        assert runs[0].seed !in Seeds(rest, family) by {
          forall o | o in Filter(OfFamily(family), rest)
            ensures o.seed != runs[0].seed
          {
            var i :| 0 <= i < |rest| && rest[i] == o;
            assert runs[i + 1] == o;
          }
        }
      } else {
        assert Seeds(runs, family) == Seeds(rest, family);
      }
    }
  }

  lemma {:induction false} CohortHasNoTwins(revision: string, observations: seq<Observation>)
    requires forall i, j :: 0 <= i < j < |observations| ==> !SameTriple(observations[i], observations[j])
    ensures NoTwins(Filter(OfRevision(revision), observations))
  {
    if observations != [] {
      var rest := observations[1..];
      assert forall i :: 0 <= i < |rest| ==> rest[i] == observations[i + 1];
      CohortHasNoTwins(revision, rest);
      FilterMembers(OfRevision(revision), rest);
      var runs, tail := Filter(OfRevision(revision), observations), Filter(OfRevision(revision), rest);
      if observations[0].revision == revision {
        assert runs == [observations[0]] + tail;
        forall j | 0 <= j < |tail|
          ensures observations[0].family != tail[j].family || observations[0].seed != tail[j].seed
        {
          assert tail[j] in tail;
          var k :| 0 <= k < |rest| && rest[k] == tail[j];
          assert !SameTriple(observations[0], observations[k + 1]);
        }
      } else {
        assert runs == tail;
      }
    }
  }

  /** In an accepted report the seeds of a family are as many as its runs: the
      identity check leaves no repetition to collapse. */
  lemma SeedsAreRuns(stats: Statistics, base: string, cand: string, observations: seq<Observation>,
                     minimumFamilies: Option<int>, minimumSeeds: Option<int>, family: string)
    requires Calibrate(stats, base, cand, observations, minimumFamilies, minimumSeeds).Accepted?
    ensures var runs := Filter(OfRevision(cand), observations);
      |Seeds(runs, family)| == SummarizeFamily(stats, runs, family).runCount
    ensures var runs := Filter(OfRevision(base), observations);
      |Seeds(runs, family)| == SummarizeFamily(stats, runs, family).runCount
  {
    IdentitiesDistinct(observations);
    CohortHasNoTwins(cand, observations);
    CohortHasNoTwins(base, observations);
    SeedCountIsRunCount(Filter(OfRevision(cand), observations), family);
    SeedCountIsRunCount(Filter(OfRevision(base), observations), family);
  }

  // Counts ---------------------------------------------------------------------------------------------

  lemma {:induction false} StatusesPartition(runs: seq<Observation>)
    ensures |Filter(IsPassed(), runs)| + |Filter(IsFailed(), runs)| + |Filter(IsErrored(), runs)| == |runs|
  {
    if runs != [] {
      StatusesPartition(runs[1..]);
    }
  }

  /** The runs of the listed families together. */
  function RunsIn(runs: seq<Observation>, families: seq<string>): nat {
    if families == [] then 0 else |Filter(OfFamily(families[0]), runs)| + RunsIn(runs, families[1..])
  }

  lemma {:induction false} OneRunAdds(o: Observation, rest: seq<Observation>, families: seq<string>)
    requires Distinct(families)
    ensures RunsIn([o] + rest, families) == RunsIn(rest, families) + (if o.family in families then 1 else 0)
  {
    if families != [] {
      var tail := families[1..];
      assert forall i :: 0 <= i < |tail| ==> tail[i] == families[i + 1];
      OneRunAdds(o, rest, tail);
      assert ([o] + rest)[1..] == rest;
      assert o.family in families <==> o.family == families[0] || o.family in tail;
      if o.family == families[0] {
        assert o.family !in tail;
      }
    }
  }

  lemma {:induction false} FamiliesPartition(runs: seq<Observation>, families: seq<string>)
    requires Distinct(families) && forall i :: 0 <= i < |runs| ==> runs[i].family in families
    ensures RunsIn(runs, families) == |runs|
  {
    if runs == [] {
      NoRuns(families);
    } else {
      assert forall i :: 0 <= i < |runs[1..]| ==> runs[1..][i] == runs[i + 1];
      FamiliesPartition(runs[1..], families);
      OneRunAdds(runs[0], runs[1..], families);
      assert runs == [runs[0]] + runs[1..];
    }
  }

  lemma {:induction false} NoRuns(families: seq<string>)
    ensures RunsIn([], families) == 0
  {
    if families != [] {
      NoRuns(families[1..]);
    }
  }

  function FamilyRunCounts(families: seq<FamilySummary>): nat {
    if families == [] then 0 else families[0].runCount + FamilyRunCounts(families[1..])
  }

  lemma {:induction false} SummariesCountRuns(stats: Statistics, runs: seq<Observation>, families: seq<string>)
    ensures FamilyRunCounts(seq(|families|, i requires 0 <= i < |families| => SummarizeFamily(stats, runs, families[i])))
      == RunsIn(runs, families)
  {
    if families != [] {
      var tail := families[1..];
      var all := seq(|families|, i requires 0 <= i < |families| => SummarizeFamily(stats, runs, families[i]));
      SummariesCountRuns(stats, runs, tail);
      assert all[1..] == seq(|tail|, i requires 0 <= i < |tail| => SummarizeFamily(stats, runs, tail[i]));
    }
  }

  /** A cohort's status counts and its families' run counts both add up to its run
      count, and the families listed are exactly those that occur, each once. */
  lemma CohortCountsAddUp(stats: Statistics, revision: string, runs: seq<Observation>)
    ensures var c := SummarizeCohort(stats, revision, runs);
      && c.passed + c.failed + c.errored == c.runCount == |runs|
      && FamilyRunCounts(c.families) == c.runCount
      && c.familyCount == |c.families|
      && (forall i, j :: 0 <= i < j < |c.families| ==> c.families[i].id != c.families[j].id)
      && (forall i :: 0 <= i < |c.families| ==> HasFamily(runs, c.families[i].id))
  {
    var families := Families(runs);
    StatusesPartition(runs);
    SortedUniqueMeaning(seq(|runs|, i requires 0 <= i < |runs| => runs[i].family));
    AscendingIsDistinct(families);
    forall i | 0 <= i < |runs|
      ensures runs[i].family in families
    {
      FamiliesMeaning(runs, runs[i].family);
    }
    FamiliesPartition(runs, families);
    SummariesCountRuns(stats, runs, families);
    forall i | 0 <= i < |families|
      ensures HasFamily(runs, families[i])
    {
      FamiliesMeaning(runs, families[i]);
    }
  }

  // The statistics -------------------------------------------------------------------------------

  predicate RateOk(i: Interval) {
    Ordered(i) && 0.0 <= i.lower && i.upper <= 1.0
  }

  predicate MeanOk(i: Interval, values: seq<real>, min: Option<real>, max: Option<real>) {
    && Ordered(i) && i.sampleSize == |values|
    && (min == Some(0.0) ==> 0.0 <= i.lower)
    && (max == Some(1.0) ==> i.upper <= 1.0)
  }

  /** What the report relies on. */
  ghost predicate StatisticsOk(stats: Statistics) {
    && (forall successes: nat, sampleSize: nat :: successes <= sampleSize ==>
      var i := stats.rate(successes, sampleSize);
      RateOk(i) && OnGrid(i.estimate) && i.sampleSize == sampleSize)
    && (forall values, min, max :: Within(values, min, max) ==> MeanOk(stats.mean(values, min, max), values, min, max))
  }

  lemma ZeroIsOnGrid()
    ensures Rounded(0.0) == 0.0
  {
    assert 0.0 == GridPoint(0);
    RoundedFixesGrid(0.0);
  }

  /** The source's intervals have these properties. */
  lemma WilsonAndMeanAreOk(sqrt: real -> real)
    requires IsSqrt(sqrt)
    ensures StatisticsOk(WilsonAndMean(sqrt))
  {
    forall successes: nat, sampleSize: nat | successes <= sampleSize
      ensures var i := WilsonInterval(sqrt, successes, sampleSize);
        RateOk(i) && OnGrid(i.estimate) && i.sampleSize == sampleSize
    {
      WilsonOrdered(sqrt, successes, sampleSize);
    }
    forall values, min, max | Within(values, min, max)
      ensures MeanOk(MeanInterval(sqrt, values, min, max), values, min, max)
    {
      MeanOrdered(sqrt, values, min, max);
      ZeroIsOnGrid();
      RoundedKeepsUnitInterval(1.0);
    }
  }

  // Tracks -----------------------------------------------------------------------------------------------

  lemma {:induction false} FilterShrinks<T>(p: T -> bool, s: seq<T>)
    ensures |Filter(p, s)| <= |s|
  {
    if s != [] {
      FilterShrinks(p, s[1..]);
    }
  }

  lemma {:induction false} UniqueTrackAppearsOnce(tracks: seq<TrackObservation>, id: string)
    requires Distinct(TrackIds(tracks))
    ensures |Filter(TrackNamed(id), tracks)| == if id in TrackIds(tracks) then 1 else 0
  {
    if tracks != [] {
      var rest := tracks[1..];
      assert TrackIds(tracks) == [tracks[0].id] + TrackIds(rest);
      assert forall i :: 0 <= i < |rest| ==> TrackIds(rest)[i] == TrackIds(tracks)[i + 1];
      UniqueTrackAppearsOnce(rest, id);
      assert id in TrackIds(tracks) <==> id == tracks[0].id || id in TrackIds(rest);
      forall i | 0 <= i < |rest|
        ensures TrackIds(rest)[i] != tracks[0].id
      {
        assert TrackIds(tracks)[0] != TrackIds(tracks)[i + 1];
      }
    }
  }

  function RunsWithTrack(runs: seq<Observation>, id: string): nat {
    if runs == [] then 0
    else (if id in TrackIds(runs[0].tracks) then 1 else 0) + RunsWithTrack(runs[1..], id)
  }

  /** A track's sample has one entry for every run that reports the track. */
  lemma TrackSampleSize(stats: Statistics, runs: seq<Observation>, id: string)
    requires StatisticsOk(stats) && AllOk(runs)
    ensures SummarizeTrack(stats, runs, id).passRate.sampleSize == RunsWithTrack(runs, id) <= |runs|
    ensures SummarizeTrack(stats, runs, id).score.sampleSize == RunsWithTrack(runs, id)
  {
    TrackSample(runs, id);
    FilterShrinks(TrackPassed(), TracksNamed(runs, id));
    assert Within(Scores(TracksNamed(runs, id)), Some(0.0), Some(1.0));
  }

  lemma {:induction false} TrackSample(runs: seq<Observation>, id: string)
    requires AllOk(runs)
    ensures |TracksNamed(runs, id)| == RunsWithTrack(runs, id) <= |runs|
    ensures forall i :: 0 <= i < |TracksNamed(runs, id)| ==> InUnit(TracksNamed(runs, id)[i].score)
  {
    if runs != [] {
      assert AllOk(runs[1..]) by {
        assert forall i :: 0 <= i < |runs[1..]| ==> runs[1..][i] == runs[i + 1];
      }
      TrackSample(runs[1..], id);
      assert ObservationOk(runs[0]);
      SetSizeDecidesDistinct(TrackIds(runs[0].tracks));
      UniqueTrackAppearsOnce(runs[0].tracks, id);
      var own := Filter(TrackNamed(id), runs[0].tracks);
      FilterMembers(TrackNamed(id), runs[0].tracks);
      forall i | 0 <= i < |own|
        ensures InUnit(own[i].score)
      {
        assert own[i] in own;
      }
    }
  }

  // Intervals --------------------------------------------------------------------------------------------------

  lemma RateIsOk(stats: Statistics, runs: seq<Observation>)
    requires StatisticsOk(stats)
    ensures RateOk(stats.rate(|Filter(IsPassed(), runs)|, |runs|))
  {
    FilterShrinks(IsPassed(), runs);
  }

  lemma TrackIntervalsOk(stats: Statistics, runs: seq<Observation>, id: string)
    requires StatisticsOk(stats) && AllOk(runs)
    ensures RateOk(SummarizeTrack(stats, runs, id).passRate) && RateOk(SummarizeTrack(stats, runs, id).score)
  {
    var tracks := TracksNamed(runs, id);
    TrackSample(runs, id);
    FilterShrinks(TrackPassed(), tracks);
    assert Within(Scores(tracks), Some(0.0), Some(1.0));
  }

  /** Every interval of a cohort encloses its estimate; rates and track scores stay
      in [0,1], times and costs are never negative. */
  lemma CohortIntervalsAreOrdered(stats: Statistics, revision: string, runs: seq<Observation>)
    requires StatisticsOk(stats) && AllOk(runs)
    ensures var c := SummarizeCohort(stats, revision, runs);
      && RateOk(c.passRate)
      && Ordered(c.completionMs) && c.completionMs.lower >= 0.0
      && Ordered(c.actionCost) && c.actionCost.lower >= 0.0
      && (forall i :: 0 <= i < |c.tracks| ==> RateOk(c.tracks[i].score) && RateOk(c.tracks[i].passRate))
      && (forall i :: 0 <= i < |c.families| ==> RateOk(c.families[i].passRate))
  {
    RateIsOk(stats, runs);
    var times := seq(|runs|, i requires 0 <= i < |runs| => runs[i].completionMs);
    var costs := seq(|runs|, i requires 0 <= i < |runs| => runs[i].actionCost);
    assert forall i :: 0 <= i < |runs| ==> ObservationOk(runs[i]);
    assert Within(times, Some(0.0), None) && Within(costs, Some(0.0), None);
    forall id: string
      ensures RateOk(SummarizeTrack(stats, runs, id).passRate) && RateOk(SummarizeTrack(stats, runs, id).score)
    {
      TrackIntervalsOk(stats, runs, id);
    }
    forall id: string
      ensures RateOk(SummarizeFamily(stats, runs, id).passRate)
    {
      RateIsOk(stats, Filter(OfFamily(id), runs));
    }
  }

  // The comparison ------------------------------------------------------------------------------------------------

  lemma RoundedIsOdd(x: real)
    ensures Rounded(-x) == -Rounded(x)
  {
    ZeroIsOnGrid();
  }

  lemma GridDifference(x: real, y: real)
    requires OnGrid(x) && OnGrid(y)
    ensures Rounded(x - y) == x - y
  {
    var k: int :| x == GridPoint(k);
    var l: int :| y == GridPoint(l);
    assert x - y == GridPoint(k - l);
    RoundedFixesGrid(x - y);
  }

  predicate CohortRateOk(c: Cohort) {
    Ordered(c.passRate)
  }

  lemma CohortRate(stats: Statistics, revision: string, runs: seq<Observation>)
    requires StatisticsOk(stats)
    ensures var c := SummarizeCohort(stats, revision, runs);
      CohortRateOk(c) && OnGrid(c.passRate.estimate)
  {
    FilterShrinks(IsPassed(), runs);
  }

  ghost predicate Opposite(there: Report, back: Report) {
    && there.passRateDifference == there.candidate.passRate.estimate - there.baseline.passRate.estimate
    && back.passRateDifference == -there.passRateDifference
    && (there.measurablyHarder ==> there.reasons == [] && there.passRateDifference < 0.0 && !back.measurablyHarder)
  }

  lemma CompareIsAntisymmetric(b: Cohort, c: Cohort, families: int, seeds: int,
                               common: seq<string>, reasons: seq<Reason>, other: seq<string>, others: seq<Reason>)
    requires CohortRateOk(b) && CohortRateOk(c) && OnGrid(b.passRate.estimate) && OnGrid(c.passRate.estimate)
    ensures Opposite(Compare(b, c, families, seeds, common, reasons), Compare(c, b, families, seeds, other, others))
  {
    GridDifference(c.passRate.estimate, b.passRate.estimate);
    RoundedIsOdd(c.passRate.estimate - b.passRate.estimate);
  }

  /** The reported difference is exact, `measurablyHarder` makes it negative, and
      exchanging the revisions negates it and can never also report harder. */
  lemma HarderIsAntisymmetric(stats: Statistics, base: string, cand: string, observations: seq<Observation>,
                              minimumFamilies: Option<int>, minimumSeeds: Option<int>)
    requires StatisticsOk(stats)
    requires Calibrate(stats, base, cand, observations, minimumFamilies, minimumSeeds).Accepted?
    ensures Calibrate(stats, cand, base, observations, minimumFamilies, minimumSeeds).Accepted?
    ensures Opposite(Calibrate(stats, base, cand, observations, minimumFamilies, minimumSeeds).report,
                     Calibrate(stats, cand, base, observations, minimumFamilies, minimumSeeds).report)
  {
    var baseRuns, candRuns := Filter(OfRevision(base), observations), Filter(OfRevision(cand), observations);
    CohortRate(stats, base, baseRuns);
    CohortRate(stats, cand, candRuns);
    var there := Calibrate(stats, base, cand, observations, minimumFamilies, minimumSeeds).report;
    var back := Calibrate(stats, cand, base, observations, minimumFamilies, minimumSeeds).report;
    CompareIsAntisymmetric(SummarizeCohort(stats, base, baseRuns), SummarizeCohort(stats, cand, candRuns),
      there.minimumFamilies, there.minimumSeeds, there.common, there.reasons, back.common, back.reasons);
  }
}
