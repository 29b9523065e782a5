/** What a calibration report says, place by place in the observations. */
module ReportMeaning {
  import opened Collections
  import opened Confidence
  import opened Calibration
  import opened CalibrationGuarantees
  import opened Scoring
  import opened Text
  import Rounding

  // The observations of a cohort -----------------------------------------------------------

  function OfCohort(revision: string): Observation -> bool {
    (o: Observation) => o.revision == revision
  }

  function Ended(revision: string, status: Status): Observation -> bool {
    (o: Observation) => o.revision == revision && o.status == status
  }

  function InFamily(revision: string, family: string): Observation -> bool {
    (o: Observation) => o.revision == revision && o.family == family
  }

  function PassedInFamily(revision: string, family: string): Observation -> bool {
    (o: Observation) => o.revision == revision && o.family == family && o.status == Passed
  }

  predicate Reports(o: Observation, id: string) {
    exists t :: t in o.tracks && t.id == id
  }

  function Reporting(revision: string, id: string): Observation -> bool {
    (o: Observation) => o.revision == revision && Reports(o, id)
  }

  function RunsOf(observations: seq<Observation>, revision: string): seq<Observation> {
    Filter(OfRevision(revision), observations)
  }

  ghost function Count(p: Observation -> bool, observations: seq<Observation>): nat {
    |Where(p, observations)|
  }

  lemma CohortCounts(observations: seq<Observation>, revision: string)
    ensures |RunsOf(observations, revision)| == Count(OfCohort(revision), observations)
    ensures |Filter(IsPassed(), RunsOf(observations, revision))| == Count(Ended(revision, Passed), observations)
    ensures |Filter(IsFailed(), RunsOf(observations, revision))| == Count(Ended(revision, Failed), observations)
    ensures |Filter(IsErrored(), RunsOf(observations, revision))| == Count(Ended(revision, Errored), observations)
  {
    FilterSame(OfCohort(revision), OfRevision(revision), observations);
    FilterTwice(IsPassed(), OfRevision(revision), Ended(revision, Passed), observations);
    FilterTwice(IsFailed(), OfRevision(revision), Ended(revision, Failed), observations);
    FilterTwice(IsErrored(), OfRevision(revision), Ended(revision, Errored), observations);
    FilterCount(OfCohort(revision), observations);
    FilterCount(Ended(revision, Passed), observations);
    FilterCount(Ended(revision, Failed), observations);
    FilterCount(Ended(revision, Errored), observations);
  }

  // Times and costs ------------------------------------------------------------------------

  function TimesAt(observations: seq<Observation>, picks: seq<nat>): seq<real>
    requires forall k :: 0 <= k < |picks| ==> picks[k] < |observations|
  {
    seq(|picks|, k requires 0 <= k < |picks| && picks[k] < |observations| => observations[picks[k]].completionMs)
  }

  function CostsAt(observations: seq<Observation>, picks: seq<nat>): seq<real>
    requires forall k :: 0 <= k < |picks| ==> picks[k] < |observations|
  {
    seq(|picks|, k requires 0 <= k < |picks| && picks[k] < |observations| => observations[picks[k]].actionCost)
  }

  ghost predicate MeansTell(stats: Statistics, observations: seq<Observation>, revision: string, c: Cohort) {
    exists picks :: Picks(OfCohort(revision), observations, picks)
      && c.completionMs == stats.mean(TimesAt(observations, picks), Some(0.0), None)
      && c.actionCost == stats.mean(CostsAt(observations, picks), Some(0.0), None)
  }

  lemma MeansMeaning(stats: Statistics, observations: seq<Observation>, revision: string)
    ensures MeansTell(stats, observations, revision, SummarizeCohort(stats, revision, RunsOf(observations, revision)))
  {
    FilterSame(OfCohort(revision), OfRevision(revision), observations);
    var runs := RunsOf(observations, revision);
    var picks := FilterPicks(OfCohort(revision), observations);
    assert TimesAt(observations, picks) == seq(|runs|, i requires 0 <= i < |runs| => runs[i].completionMs);
    assert CostsAt(observations, picks) == seq(|runs|, i requires 0 <= i < |runs| => runs[i].actionCost);
  }

  // Families -------------------------------------------------------------------------------

  ghost predicate FamiliesTell(stats: Statistics, observations: seq<Observation>, revision: string, families: seq<FamilySummary>) {
    && (forall i, j :: 0 <= i < j < |families| ==> Less(families[i].id, families[j].id))
    && (forall o :: o in observations && o.revision == revision ==> exists i :: 0 <= i < |families| && families[i].id == o.family)
    && (forall i :: 0 <= i < |families| ==> FamilyTells(stats, observations, revision, families[i]))
  }

  ghost predicate FamilyTells(stats: Statistics, observations: seq<Observation>, revision: string, f: FamilySummary) {
    && (exists o :: o in observations && o.revision == revision && o.family == f.id)
    && f.runCount == Count(InFamily(revision, f.id), observations)
    && f.passRate == stats.rate(Count(PassedInFamily(revision, f.id), observations), f.runCount)
  }

  lemma RunMembers(observations: seq<Observation>, revision: string, o: Observation)
    ensures o in RunsOf(observations, revision) <==> o in observations && o.revision == revision
  {
    FilterMembers(OfRevision(revision), observations);
  }

  lemma FamilyMeaning(stats: Statistics, observations: seq<Observation>, revision: string, family: string)
    requires HasFamily(RunsOf(observations, revision), family)
    ensures FamilyTells(stats, observations, revision, SummarizeFamily(stats, RunsOf(observations, revision), family))
  {
    var runs := RunsOf(observations, revision);
    var i :| 0 <= i < |runs| && runs[i].family == family;
    assert runs[i] in runs;
    RunMembers(observations, revision, runs[i]);
    FilterTwice(OfFamily(family), OfRevision(revision), InFamily(revision, family), observations);
    FilterTwice(IsPassed(), InFamily(revision, family), PassedInFamily(revision, family), observations);
    FilterCount(InFamily(revision, family), observations);
    FilterCount(PassedInFamily(revision, family), observations);
  }

  lemma FamiliesOfCohort(stats: Statistics, observations: seq<Observation>, revision: string)
    ensures FamiliesTell(stats, observations, revision,
      SummarizeCohort(stats, revision, RunsOf(observations, revision)).families)
  {
    var runs := RunsOf(observations, revision);
    var families := Families(runs);
    var summaries := SummarizeCohort(stats, revision, runs).families;
    SortedUniqueMeaning(seq(|runs|, i requires 0 <= i < |runs| => runs[i].family));
    forall i | 0 <= i < |families|
      ensures FamilyTells(stats, observations, revision, summaries[i])
    {
      FamiliesMeaning(runs, families[i]);
      FamilyMeaning(stats, observations, revision, families[i]);
    }
    forall o | o in observations && o.revision == revision
      ensures exists i :: 0 <= i < |summaries| && summaries[i].id == o.family
    {
      RunMembers(observations, revision, o);
      var k :| 0 <= k < |runs| && runs[k] == o;
      assert runs[k].family == o.family;
      FamiliesMeaning(runs, o.family);
      var i :| 0 <= i < |families| && families[i] == o.family;
      assert summaries[i].id == o.family;
    }
  }

  // Tracks ---------------------------------------------------------------------------------

  /** `reports` lists, in order, what the runs of a cohort report on a track. */
  ghost predicate ReportsOn(observations: seq<Observation>, revision: string, id: string, reports: seq<TrackObservation>) {
    exists picks :: Picks(Reporting(revision, id), observations, picks) && |picks| == |reports|
      && forall k :: 0 <= k < |reports| ==> reports[k] in observations[picks[k]].tracks && reports[k].id == id
  }

  ghost predicate TrackTells(stats: Statistics, observations: seq<Observation>, revision: string, t: TrackSummary) {
    exists reports :: reports != [] && ReportsOn(observations, revision, t.id, reports)
      && t.score == stats.mean(ScoresOf(reports), Some(0.0), Some(1.0))
      && t.passRate == stats.rate(|Where(HasPassed(), reports)|, |reports|)
  }

  function ScoresOf(reports: seq<TrackObservation>): seq<real> {
    seq(|reports|, k requires 0 <= k < |reports| => reports[k].score)
  }

  function HasPassed(): TrackObservation -> bool {
    (t: TrackObservation) => t.status == Passed
  }

  ghost predicate TracksTell(stats: Statistics, observations: seq<Observation>, revision: string, tracks: seq<TrackSummary>) {
    && (forall i, j :: 0 <= i < j < |tracks| ==> Less(tracks[i].id, tracks[j].id))
    && (forall o, t :: o in observations && o.revision == revision && t in o.tracks ==>
         exists i :: 0 <= i < |tracks| && tracks[i].id == t.id)
    && (forall i :: 0 <= i < |tracks| ==> TrackTells(stats, observations, revision, tracks[i]))
  }

  /** One run reports a track at most once. */
  lemma OwnReport(o: Observation, id: string)
    requires ObservationOk(o)
    ensures var own := Filter(TrackNamed(id), o.tracks);
      if Reports(o, id) then |own| == 1 && own[0] in o.tracks && own[0].id == id else own == []
  {
    var own := Filter(TrackNamed(id), o.tracks);
    SetSizeDecidesDistinct(TrackIds(o.tracks));
    UniqueTrackAppearsOnce(o.tracks, id);
    FilterMembers(TrackNamed(id), o.tracks);
    if own != [] {
      assert own[0] in own;
    }
    if t :| t in o.tracks && t.id == id {
      assert t in own;
    }
  }

  ghost predicate Paired(kept: seq<Observation>, reports: seq<TrackObservation>, id: string) {
    && |kept| == |reports|
    && forall k :: 0 <= k < |reports| ==> reports[k] in kept[k].tracks && reports[k].id == id
  }

  lemma PairedStep(o: Observation, kept: seq<Observation>, reports: seq<TrackObservation>, own: seq<TrackObservation>, id: string)
    requires Paired(kept, reports, id)
    requires own == [] || (|own| == 1 && own[0] in o.tracks && own[0].id == id)
    ensures Paired((if own == [] then [] else [o]) + kept, own + reports, id)
  {
    var all := own + reports;
    assert forall k :: |own| <= k < |all| ==> all[k] == reports[k - |own|];
  }

  lemma ReportsOfFirst(observations: seq<Observation>, revision: string, id: string)
    requires observations != [] && ObservationOk(observations[0])
    ensures var (o, rest) := (observations[0], observations[1..]);
      var own := if o.revision == revision then Filter(TrackNamed(id), o.tracks) else [];
      && TracksNamed(RunsOf(observations, revision), id) == own + TracksNamed(RunsOf(rest, revision), id)
      && Filter(Reporting(revision, id), observations)
         == (if own == [] then [] else [o]) + Filter(Reporting(revision, id), rest)
  {
    var (o, rest) := (observations[0], observations[1..]);
    OwnReport(o, id);
    if o.revision == revision {
      assert RunsOf(observations, revision) == [o] + RunsOf(rest, revision);
      assert RunsOf(observations, revision)[1..] == RunsOf(rest, revision);
    } else {
      assert RunsOf(observations, revision) == RunsOf(rest, revision);
    }
  }

  lemma {:induction false} ReportsPaired(observations: seq<Observation>, revision: string, id: string)
    requires AllOk(observations)
    ensures Paired(Filter(Reporting(revision, id), observations), TracksNamed(RunsOf(observations, revision), id), id)
  {
    if observations != [] {
      var (o, rest) := (observations[0], observations[1..]);
      assert ObservationOk(o);
      assert AllOk(rest) by {
        assert forall i :: 0 <= i < |rest| ==> rest[i] == observations[i + 1];
      }
      ReportsPaired(rest, revision, id);
      OwnReport(o, id);
      ReportsOfFirst(observations, revision, id);
      PairedStep(o, Filter(Reporting(revision, id), rest), TracksNamed(RunsOf(rest, revision), id),
        if o.revision == revision then Filter(TrackNamed(id), o.tracks) else [], id);
    }
  }

  lemma ReportsListed(observations: seq<Observation>, revision: string, id: string)
    requires AllOk(observations)
    ensures ReportsOn(observations, revision, id, TracksNamed(RunsOf(observations, revision), id))
  {
    ReportsPaired(observations, revision, id);
    var picks := FilterPicks(Reporting(revision, id), observations);
    var reports := TracksNamed(RunsOf(observations, revision), id);
    assert forall k :: 0 <= k < |reports| ==> Filter(Reporting(revision, id), observations)[k] == observations[picks[k]];
  }

  lemma SomeReport(observations: seq<Observation>, revision: string, id: string, o: Observation)
    requires AllOk(observations) && o in observations && o.revision == revision && Reports(o, id)
    ensures TracksNamed(RunsOf(observations, revision), id) != []
  {
    ReportsPaired(observations, revision, id);
    FilterMembers(Reporting(revision, id), observations);
    assert o in Filter(Reporting(revision, id), observations);
  }

  lemma TrackMeaning(stats: Statistics, observations: seq<Observation>, revision: string, id: string, o: Observation)
    requires AllOk(observations) && o in observations && o.revision == revision && Reports(o, id)
    ensures TrackTells(stats, observations, revision, SummarizeTrack(stats, RunsOf(observations, revision), id))
  {
    var reports := TracksNamed(RunsOf(observations, revision), id);
    ReportsListed(observations, revision, id);
    SomeReport(observations, revision, id, o);
    FilterSame(HasPassed(), TrackPassed(), reports);
    FilterCount(HasPassed(), reports);
    assert ScoresOf(reports) == Scores(reports);
  }

  lemma {:induction false} AllTracksMeaning(runs: seq<Observation>, t: TrackObservation)
    ensures t in AllTracks(runs) <==> exists o :: o in runs && t in o.tracks
  {
    if runs != [] {
      AllTracksMeaning(runs[1..], t);
      assert forall o :: o in runs <==> o == runs[0] || o in runs[1..];
    }
  }

  lemma TrackIdsMeaning(runs: seq<Observation>, id: string)
    ensures id in TrackIds(AllTracks(runs)) <==> exists o :: o in runs && Reports(o, id)
  {
    var all := AllTracks(runs);
    if id in TrackIds(all) {
      var i :| 0 <= i < |all| && TrackIds(all)[i] == id;
      AllTracksMeaning(runs, all[i]);
    }
    if o :| o in runs && Reports(o, id) {
      var t :| t in o.tracks && t.id == id;
      AllTracksMeaning(runs, t);
      var i :| 0 <= i < |all| && all[i] == t;
      assert TrackIds(all)[i] == id;
    }
  }

  lemma TracksOfCohort(stats: Statistics, observations: seq<Observation>, revision: string)
    requires AllOk(observations)
    ensures TracksTell(stats, observations, revision,
      SummarizeCohort(stats, revision, RunsOf(observations, revision)).tracks)
  {
    var runs := RunsOf(observations, revision);
    var ids := SortedUnique(TrackIds(AllTracks(runs)));
    var summaries := SummarizeCohort(stats, revision, runs).tracks;
    SortedUniqueMeaning(TrackIds(AllTracks(runs)));
    forall i | 0 <= i < |ids|
      ensures TrackTells(stats, observations, revision, summaries[i])
    {
      TrackIdsMeaning(runs, ids[i]);
      var o :| o in runs && Reports(o, ids[i]);
      RunMembers(observations, revision, o);
      TrackMeaning(stats, observations, revision, ids[i], o);
    }
    forall o, t | o in observations && o.revision == revision && t in o.tracks
      ensures exists i :: 0 <= i < |summaries| && summaries[i].id == t.id
    {
      RunMembers(observations, revision, o);
      assert Reports(o, t.id);
      TrackIdsMeaning(runs, t.id);
      var i :| 0 <= i < |ids| && ids[i] == t.id;
      assert summaries[i].id == t.id;
    }
  }

  // The cohort -----------------------------------------------------------------------------

  ghost predicate CohortTells(stats: Statistics, observations: seq<Observation>, revision: string, c: Cohort) {
    && c.revision == revision && c.familyCount == |c.families|
    && c.runCount == Count(OfCohort(revision), observations)
    && c.passed == Count(Ended(revision, Passed), observations)
    && c.failed == Count(Ended(revision, Failed), observations)
    && c.errored == Count(Ended(revision, Errored), observations)
    && c.passRate == stats.rate(c.passed, c.runCount)
    && MeansTell(stats, observations, revision, c)
    && FamiliesTell(stats, observations, revision, c.families)
    && TracksTell(stats, observations, revision, c.tracks)
  }

  lemma CohortMeaning(stats: Statistics, observations: seq<Observation>, revision: string)
    requires AllOk(observations)
    ensures CohortTells(stats, observations, revision, SummarizeCohort(stats, revision, RunsOf(observations, revision)))
  {
    CohortCounts(observations, revision);
    MeansMeaning(stats, observations, revision);
    FamiliesOfCohort(stats, observations, revision);
    TracksOfCohort(stats, observations, revision);
  }

  // Enough data ----------------------------------------------------------------------------

  predicate HasRun(observations: seq<Observation>, revision: string, family: string) {
    exists o :: o in observations && o.revision == revision && o.family == family
  }

  ghost function SharedFamilies(observations: seq<Observation>, base: string, cand: string): set<string> {
    set o | o in observations && o.revision == base && HasRun(observations, cand, o.family) :: o.family
  }

  ghost function SeedsOf(observations: seq<Observation>, revision: string, family: string): set<string> {
    set o | o in observations && o.revision == revision && o.family == family :: o.seed
  }

  lemma HasRunMeaning(observations: seq<Observation>, revision: string, family: string)
    ensures HasFamily(RunsOf(observations, revision), family) <==> HasRun(observations, revision, family)
  {
    var runs := RunsOf(observations, revision);
    if HasFamily(runs, family) {
      var i :| 0 <= i < |runs| && runs[i].family == family;
      assert runs[i] in runs;
      RunMembers(observations, revision, runs[i]);
    }
    if o :| o in observations && o.revision == revision && o.family == family {
      RunMembers(observations, revision, o);
      var i :| 0 <= i < |runs| && runs[i] == o;
      assert runs[i].family == family;
    }
  }

  lemma SeedsMeaning(observations: seq<Observation>, revision: string, family: string)
    ensures Seeds(RunsOf(observations, revision), family) == SeedsOf(observations, revision, family)
  {
    FilterMembers(OfFamily(family), RunsOf(observations, revision));
    FilterMembers(OfRevision(revision), observations);
  }

  lemma CommonTells(observations: seq<Observation>, base: string, cand: string)
    ensures var common := Common(RunsOf(observations, base), RunsOf(observations, cand));
      && Elements(common) == SharedFamilies(observations, base, cand)
      && Ascending(common)
      && |common| == |SharedFamilies(observations, base, cand)|
  {
    var (baseRuns, candRuns) := (RunsOf(observations, base), RunsOf(observations, cand));
    var common := Common(baseRuns, candRuns);
    forall f
      ensures f in common <==> f in SharedFamilies(observations, base, cand)
    {
      CommonMeaning(baseRuns, candRuns, f);
      HasRunMeaning(observations, base, f);
      HasRunMeaning(observations, cand, f);
    }
    SortedUniqueMeaning(seq(|baseRuns|, i requires 0 <= i < |baseRuns| => baseRuns[i].family));
    var picks := FilterPicks((f: string) => f in Families(candRuns), Families(baseRuns));
    AscendingIsDistinct(common);
    SetSizeDecidesDistinct(common);
  }

  ghost predicate EnoughData(observations: seq<Observation>, base: string, cand: string, minimumFamilies: int, minimumSeeds: int) {
    && |SharedFamilies(observations, base, cand)| >= minimumFamilies
    && forall f :: f in SharedFamilies(observations, base, cand) ==>
      |SeedsOf(observations, base, f)| >= minimumSeeds && |SeedsOf(observations, cand, f)| >= minimumSeeds
  }

  lemma EnoughMeaning(observations: seq<Observation>, base: string, cand: string, minimumFamilies: int, minimumSeeds: int)
    ensures Reasons(RunsOf(observations, base), RunsOf(observations, cand), minimumFamilies, minimumSeeds) == []
      <==> EnoughData(observations, base, cand, minimumFamilies, minimumSeeds)
  {
    var (baseRuns, candRuns) := (RunsOf(observations, base), RunsOf(observations, cand));
    ReadyMeaning(baseRuns, candRuns, minimumFamilies, minimumSeeds);
    CommonTells(observations, base, cand);
    forall f
      ensures HasFamily(baseRuns, f) && HasFamily(candRuns, f) <==> f in SharedFamilies(observations, base, cand)
      ensures Seeds(baseRuns, f) == SeedsOf(observations, base, f) && Seeds(candRuns, f) == SeedsOf(observations, cand, f)
    {
      HasRunMeaning(observations, base, f);
      HasRunMeaning(observations, cand, f);
      SeedsMeaning(observations, base, f);
      SeedsMeaning(observations, cand, f);
    }
  }

  /** The reasons against a report: too few families, and every shared family and side
      with too few seeds. */
  ghost predicate IsReason(observations: seq<Observation>, base: string, cand: string,
                           minimumFamilies: int, minimumSeeds: int, reason: Reason)
  {
    match reason
    case TooFewFamilies => |SharedFamilies(observations, base, cand)| < minimumFamilies
    case TooFewSeeds(candidate, f) =>
      && f in SharedFamilies(observations, base, cand)
      && |SeedsOf(observations, if candidate then cand else base, f)| < minimumSeeds
  }

  lemma {:induction false} SeedReasonMembers(baseline: seq<Observation>, candidate: seq<Observation>,
                                             families: seq<string>, minimum: int, reason: Reason)
    ensures reason in SeedReasons(baseline, candidate, families, minimum) <==>
      reason.TooFewSeeds? && reason.family in families
      && |Seeds(if reason.candidate then candidate else baseline, reason.family)| < minimum
  {
    if families != [] {
      var front, last := families[..|families| - 1], families[|families| - 1];
      SeedReasonMembers(baseline, candidate, front, minimum, reason);
      FamilyReasonMembers(baseline, candidate, last, minimum, reason);
      assert forall f :: f in families <==> f in front || f == last;
    }
  }

  lemma FamilyReasonMembers(baseline: seq<Observation>, candidate: seq<Observation>, family: string, minimum: int, reason: Reason)
    ensures reason in FamilyReasons(baseline, candidate, family, minimum, 2) <==>
      reason.TooFewSeeds? && reason.family == family
      && |Seeds(if reason.candidate then candidate else baseline, family)| < minimum
  {
    assert FamilyReasons(baseline, candidate, family, minimum, 0) == [];
    assert FamilyReasons(baseline, candidate, family, minimum, 1)
      == if |Seeds(baseline, family)| < minimum then [TooFewSeeds(false, family)] else [];
  }

  lemma ReasonMembers(observations: seq<Observation>, base: string, cand: string,
                      minimumFamilies: int, minimumSeeds: int, reason: Reason)
    ensures reason in Reasons(RunsOf(observations, base), RunsOf(observations, cand), minimumFamilies, minimumSeeds)
      <==> IsReason(observations, base, cand, minimumFamilies, minimumSeeds, reason)
  {
    var (baseRuns, candRuns) := (RunsOf(observations, base), RunsOf(observations, cand));
    SeedReasonMembers(baseRuns, candRuns, Common(baseRuns, candRuns), minimumSeeds, reason);
    CommonTells(observations, base, cand);
    if reason.TooFewSeeds? {
      SeedsMeaning(observations, base, reason.family);
      SeedsMeaning(observations, cand, reason.family);
      assert reason.family in Common(baseRuns, candRuns) <==> reason.family in Elements(Common(baseRuns, candRuns));
    }
  }

  // The report -----------------------------------------------------------------------------

  /** The whole interval of the candidate lies below that of the baseline. */
  ghost predicate ClearlyBelow(stats: Statistics, observations: seq<Observation>, base: string, cand: string) {
    stats.rate(Count(Ended(cand, Passed), observations), Count(OfCohort(cand), observations)).upper
      < stats.rate(Count(Ended(base, Passed), observations), Count(OfCohort(base), observations)).lower
  }

  ghost predicate CommonLists(observations: seq<Observation>, base: string, cand: string, common: seq<string>) {
    Ascending(common) && forall f :: f in common <==> f in SharedFamilies(observations, base, cand)
  }

  ghost predicate ReasonsList(observations: seq<Observation>, base: string, cand: string,
                              minimumFamilies: int, minimumSeeds: int, reasons: seq<Reason>)
  {
    forall reason :: reason in reasons <==> IsReason(observations, base, cand, minimumFamilies, minimumSeeds, reason)
  }

  lemma ListsMeaning(observations: seq<Observation>, base: string, cand: string, minimumFamilies: int, minimumSeeds: int)
    ensures CommonLists(observations, base, cand, Common(RunsOf(observations, base), RunsOf(observations, cand)))
    ensures ReasonsList(observations, base, cand, minimumFamilies, minimumSeeds,
      Reasons(RunsOf(observations, base), RunsOf(observations, cand), minimumFamilies, minimumSeeds))
  {
    CommonTells(observations, base, cand);
    var common := Common(RunsOf(observations, base), RunsOf(observations, cand));
    assert forall f :: f in common <==> f in Elements(common);
    forall reason
      ensures reason in Reasons(RunsOf(observations, base), RunsOf(observations, cand), minimumFamilies, minimumSeeds)
        <==> IsReason(observations, base, cand, minimumFamilies, minimumSeeds, reason)
    {
      ReasonMembers(observations, base, cand, minimumFamilies, minimumSeeds, reason);
    }
  }

  lemma HarderMeaning(stats: Statistics, observations: seq<Observation>, base: string, cand: string,
                      minimumFamilies: int, minimumSeeds: int)
    ensures var (b, c) := (SummarizeCohort(stats, base, RunsOf(observations, base)),
                           SummarizeCohort(stats, cand, RunsOf(observations, cand)));
      var reasons := Reasons(RunsOf(observations, base), RunsOf(observations, cand), minimumFamilies, minimumSeeds);
      Compare(b, c, minimumFamilies, minimumSeeds, Common(RunsOf(observations, base), RunsOf(observations, cand)), reasons)
        .measurablyHarder
      <==> EnoughData(observations, base, cand, minimumFamilies, minimumSeeds) && ClearlyBelow(stats, observations, base, cand)
  {
    CohortCounts(observations, base);
    CohortCounts(observations, cand);
    EnoughMeaning(observations, base, cand, minimumFamilies, minimumSeeds);
  }

  lemma ReportIs(stats: Statistics, base: string, cand: string, observations: seq<Observation>,
                 minimumFamilies: Option<int>, minimumSeeds: Option<int>)
    requires Calibrate(stats, base, cand, observations, minimumFamilies, minimumSeeds).Accepted?
    ensures AllOk(observations)
    ensures var families := if minimumFamilies.Some? then minimumFamilies.value else 3;
      var seeds := if minimumSeeds.Some? then minimumSeeds.value else 2;
      Calibrate(stats, base, cand, observations, minimumFamilies, minimumSeeds).report
        == Compare(SummarizeCohort(stats, base, RunsOf(observations, base)),
                   SummarizeCohort(stats, cand, RunsOf(observations, cand)), families, seeds,
                   Common(RunsOf(observations, base), RunsOf(observations, cand)),
                   Reasons(RunsOf(observations, base), RunsOf(observations, cand), families, seeds))
  {
  }

  /** The two cohorts of an accepted report, field by field. */
  lemma CohortsMean(stats: Statistics, base: string, cand: string, observations: seq<Observation>,
                    minimumFamilies: Option<int>, minimumSeeds: Option<int>)
    returns (b: Cohort, c: Cohort)
    requires Calibrate(stats, base, cand, observations, minimumFamilies, minimumSeeds).Accepted?
    ensures b == Calibrate(stats, base, cand, observations, minimumFamilies, minimumSeeds).report.baseline
    ensures c == Calibrate(stats, base, cand, observations, minimumFamilies, minimumSeeds).report.candidate
    ensures CohortTells(stats, observations, base, b) && CohortTells(stats, observations, cand, c)
  {
    b, c := CohortsOf(stats, base, cand, observations, minimumFamilies, minimumSeeds);
    CohortMeaning(stats, observations, base);
    CohortMeaning(stats, observations, cand);
  }

  lemma CohortsOf(stats: Statistics, base: string, cand: string, observations: seq<Observation>,
                  minimumFamilies: Option<int>, minimumSeeds: Option<int>)
    returns (b: Cohort, c: Cohort)
    requires Calibrate(stats, base, cand, observations, minimumFamilies, minimumSeeds).Accepted?
    ensures AllOk(observations)
    ensures b == Calibrate(stats, base, cand, observations, minimumFamilies, minimumSeeds).report.baseline
    ensures c == Calibrate(stats, base, cand, observations, minimumFamilies, minimumSeeds).report.candidate
    ensures b == SummarizeCohort(stats, base, RunsOf(observations, base))
    ensures c == SummarizeCohort(stats, cand, RunsOf(observations, cand))
  {
    b := SummarizeCohort(stats, base, RunsOf(observations, base));
    c := SummarizeCohort(stats, cand, RunsOf(observations, cand));
  }

  /** The lists of an accepted report: the families in both cohorts, and every reason. */
  lemma ListsMean(stats: Statistics, base: string, cand: string, observations: seq<Observation>,
                  minimumFamilies: Option<int>, minimumSeeds: Option<int>)
    requires Calibrate(stats, base, cand, observations, minimumFamilies, minimumSeeds).Accepted?
    ensures var r := Calibrate(stats, base, cand, observations, minimumFamilies, minimumSeeds).report;
      && r.minimumFamilies == (if minimumFamilies.Some? then minimumFamilies.value else 3)
      && r.minimumSeeds == (if minimumSeeds.Some? then minimumSeeds.value else 2)
      && CommonLists(observations, base, cand, r.common)
      && ReasonsList(observations, base, cand, r.minimumFamilies, r.minimumSeeds, r.reasons)
  {
    var families := if minimumFamilies.Some? then minimumFamilies.value else 3;
    var seeds := if minimumSeeds.Some? then minimumSeeds.value else 2;
    ReportIs(stats, base, cand, observations, minimumFamilies, minimumSeeds);
    ListsMeaning(observations, base, cand, families, seeds);
  }

  /** The comparison in an accepted report: `measurablyHarder` exactly when there is
      enough data and the whole interval of the candidate lies below the baseline's. */
  lemma HarderMeans(stats: Statistics, base: string, cand: string, observations: seq<Observation>,
                    minimumFamilies: Option<int>, minimumSeeds: Option<int>)
    requires Calibrate(stats, base, cand, observations, minimumFamilies, minimumSeeds).Accepted?
    ensures var r := Calibrate(stats, base, cand, observations, minimumFamilies, minimumSeeds).report;
      && (r.measurablyHarder <==>
           EnoughData(observations, base, cand, r.minimumFamilies, r.minimumSeeds) && ClearlyBelow(stats, observations, base, cand))
      && r.passRateDifference == Rounding.Rounded(r.candidate.passRate.estimate - r.baseline.passRate.estimate)
  {
    ReportIs(stats, base, cand, observations, minimumFamilies, minimumSeeds);
    HarderMeaning(stats, observations, base, cand,
      if minimumFamilies.Some? then minimumFamilies.value else 3, if minimumSeeds.Some? then minimumSeeds.value else 2);
  }

  /** What is refused, in the order of the checks. */
  lemma RefusalMeaning(stats: Statistics, base: string, cand: string, observations: seq<Observation>,
                       minimumFamilies: Option<int>, minimumSeeds: Option<int>)
    ensures var answer := Calibrate(stats, base, cand, observations, minimumFamilies, minimumSeeds);
      && (answer == Refused(SameRevision) <==> base == cand)
      && (answer == Refused(InvalidObservation) <==> base != cand && !AllOk(observations))
      && (answer == Refused(DuplicateIdentity) <==>
           base != cand && AllOk(observations) && !Distinct(Identities(observations)))
      && (answer == Refused(MissingCohort) <==>
           base != cand && AllOk(observations) && Distinct(Identities(observations))
           && (!HasRevision(observations, base) || !HasRevision(observations, cand)))
  {
    AnswerMeaning(stats, base, cand, observations, minimumFamilies, minimumSeeds);
    SetSizeDecidesDistinct(Identities(observations));
  }
}
