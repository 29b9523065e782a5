/** Cross references of a published suite manifest: sessions, capability matrix
    and scenario graph. */
module SuiteManifest {
  import opened Collections
  import CapabilityMatrix
  import ScenarioGraph

  datatype Session = Session(taskSlug: string, sequenceIndex: int, variantIds: seq<string>)

  datatype ConsistencyCheck = ConsistencyCheck(name: string, sourceTaskSlug: string, targetTaskSlug: string)

  datatype Suite = Suite(
    sessions: seq<Session>,
    checks: seq<ConsistencyCheck>,
    matrix: Option<CapabilityMatrix.Matrix>,
    graph: Option<ScenarioGraph.Graph>)

  function CoverageOf(suite: Suite): seq<CapabilityMatrix.Coverage> {
    if suite.matrix.Some? then suite.matrix.value.coverage else []
  }

  function KnownCapabilities(suite: Suite): seq<string> {
    if suite.matrix.Some? then CapabilityMatrix.CapabilityIds(suite.matrix.value) else []
  }

  function NodesOf(suite: Suite): seq<ScenarioGraph.Node> {
    if suite.graph.Some? then suite.graph.value.nodes else []
  }

  /** `new Map(sessions.map(...)).get(taskSlug)`: the last session of a task. */
  function SessionByTask(sessions: seq<Session>, taskSlug: string): (found: Option<Session>)
    ensures found.Some? <==> exists i :: 0 <= i < |sessions| && sessions[i].taskSlug == taskSlug
    ensures found.Some? ==> found.value in sessions && found.value.taskSlug == taskSlug
  {
    if sessions == [] then None
    else if sessions[|sessions| - 1].taskSlug == taskSlug then Some(sessions[|sessions| - 1])
    else SessionByTask(sessions[..|sessions| - 1], taskSlug)
  }

  /** Of several sessions of one task the last is the one that is compared. */
  lemma {:induction false} LastSessionWins(sessions: seq<Session>, i: nat)
    requires i < |sessions| && forall j :: i < j < |sessions| ==> sessions[j].taskSlug != sessions[i].taskSlug
    ensures SessionByTask(sessions, sessions[i].taskSlug) == Some(sessions[i])
  {
    if i < |sessions| - 1 {
      LastSessionWins(sessions[..|sessions| - 1], i);
    }
  }

  datatype Issue =
    | SequenceIndexes
    | DuplicateVariants(index: nat)
    | UnknownSource(index: nat)
    | UnknownTarget(index: nat)
    | SourceNotEarlier(index: nat)
    | CoverageUnknownSession(index: nat)
    | CoverageUnknownVariant(index: nat)
    | GraphWithoutMatrix
    | NodeUnknownSession(index: nat)
    | NodeUnknownCapability(index: nat, id: string)

  ghost predicate HasTask(suite: Suite, taskSlug: string) {
    exists i :: 0 <= i < |suite.sessions| && suite.sessions[i].taskSlug == taskSlug
  }

  /** What each diagnostic means. */
  ghost predicate Holds(suite: Suite, issue: Issue) {
    match issue
    case SequenceIndexes =>
      exists i :: 0 <= i < |suite.sessions| && suite.sessions[i].sequenceIndex != i
    case DuplicateVariants(i) => i < |suite.sessions| && !Distinct(suite.sessions[i].variantIds)
    case UnknownSource(i) => i < |suite.checks| && !HasTask(suite, suite.checks[i].sourceTaskSlug)
    case UnknownTarget(i) => i < |suite.checks| && !HasTask(suite, suite.checks[i].targetTaskSlug)
    case SourceNotEarlier(i) =>
      && i < |suite.checks|
      && var source := SessionByTask(suite.sessions, suite.checks[i].sourceTaskSlug);
      var target := SessionByTask(suite.sessions, suite.checks[i].targetTaskSlug);
      source.Some? && target.Some? && source.value.sequenceIndex >= target.value.sequenceIndex
    case CoverageUnknownSession(i) => i < |CoverageOf(suite)| && !HasTask(suite, CoverageOf(suite)[i].taskSlug)
    case CoverageUnknownVariant(i) =>
      && i < |CoverageOf(suite)|
      && var session := SessionByTask(suite.sessions, CoverageOf(suite)[i].taskSlug);
      session.Some? && CoverageOf(suite)[i].variantId !in session.value.variantIds
    case GraphWithoutMatrix => suite.graph.Some? && suite.matrix.None?
    case NodeUnknownSession(i) => i < |NodesOf(suite)| && !HasTask(suite, NodesOf(suite)[i].taskSlug)
    case NodeUnknownCapability(i, id) =>
      i < |NodesOf(suite)| && id in NodesOf(suite)[i].capabilityIds && id !in KnownCapabilities(suite)
  }

  /** The manifests the suite schema lets through. */
  ghost predicate Accepted(suite: Suite) {
    && suite.sessions != []
    && (suite.matrix.Some? ==> CapabilityMatrix.Accepted(suite.matrix.value))
    && (suite.graph.Some? ==> ScenarioGraph.Accepted(suite.graph.value))
    && forall x :: !Holds(suite, x)
  }

  method SessionIssues(suite: Suite) returns (issues: seq<Issue>)
    ensures forall x :: x in issues <==> (x.SequenceIndexes? || x.DuplicateVariants?) && Holds(suite, x)
  {
    var indexes := seq(|suite.sessions|, i requires 0 <= i < |suite.sessions| => suite.sessions[i].sequenceIndex);
    SetSizeDecidesDistinct(indexes);
    var misplaced := exists i :: 0 <= i < |indexes| && indexes[i] != i;
    issues := if |Elements(indexes)| != |indexes| || misplaced then [SequenceIndexes] else [];
    if !misplaced {
      assert forall i :: 0 <= i < |indexes| ==> indexes[i] == i;
      assert Distinct(indexes);
    } else {
      var i :| 0 <= i < |indexes| && indexes[i] != i;
      assert suite.sessions[i].sequenceIndex != i;
    }
    assert forall i :: 0 <= i < |suite.sessions| ==> suite.sessions[i].sequenceIndex == indexes[i];
    for i := 0 to |suite.sessions|
      invariant forall x :: x in issues <==>
        (x.SequenceIndexes? || (x.DuplicateVariants? && x.index < i)) && Holds(suite, x)
    {
      var ids := suite.sessions[i].variantIds;
      SetSizeDecidesDistinct(ids);
      if |Elements(ids)| != |ids| {
        issues := issues + [DuplicateVariants(i)];
      }
    }
  }

  predicate IsCheckIssue(x: Issue) {
    x.UnknownSource? || x.UnknownTarget? || x.SourceNotEarlier?
  }

  method CheckIssues(suite: Suite) returns (issues: seq<Issue>)
    ensures forall x :: x in issues <==> IsCheckIssue(x) && Holds(suite, x)
  {
    issues := [];
    for i := 0 to |suite.checks|
      invariant forall x :: x in issues <==> IsCheckIssue(x) && x.index < i && Holds(suite, x)
    {
      var source := SessionByTask(suite.sessions, suite.checks[i].sourceTaskSlug);
      var target := SessionByTask(suite.sessions, suite.checks[i].targetTaskSlug);
      if source.None? {
        issues := issues + [UnknownSource(i)];
      }
      if target.None? {
        issues := issues + [UnknownTarget(i)];
      }
      if source.Some? && target.Some? && source.value.sequenceIndex >= target.value.sequenceIndex {
        issues := issues + [SourceNotEarlier(i)];
      }
    }
  }

  method CoverageIssues(suite: Suite) returns (issues: seq<Issue>)
    ensures forall x :: x in issues <==> (x.CoverageUnknownSession? || x.CoverageUnknownVariant?) && Holds(suite, x)
  {
    issues := [];
    var coverage := CoverageOf(suite);
    for i := 0 to |coverage|
      invariant forall x :: x in issues <==>
        (x.CoverageUnknownSession? || x.CoverageUnknownVariant?) && x.index < i && Holds(suite, x)
    {
      var session := SessionByTask(suite.sessions, coverage[i].taskSlug);
      if session.None? {
        issues := issues + [CoverageUnknownSession(i)];
      } else if coverage[i].variantId !in session.value.variantIds {
        issues := issues + [CoverageUnknownVariant(i)];
      }
    }
  }

  method NodeIssues(suite: Suite) returns (issues: seq<Issue>)
    ensures forall x :: x in issues <==> (x.NodeUnknownSession? || x.NodeUnknownCapability?) && Holds(suite, x)
  {
    issues := [];
    var nodes, known := NodesOf(suite), KnownCapabilities(suite);
    for i := 0 to |nodes|
      invariant forall x :: x in issues <==>
        (x.NodeUnknownSession? || x.NodeUnknownCapability?) && x.index < i && Holds(suite, x)
    {
      if SessionByTask(suite.sessions, nodes[i].taskSlug).None? {
        issues := issues + [NodeUnknownSession(i)];
      }
      ghost var before := issues;
      var ids := nodes[i].capabilityIds;
      for k := 0 to |ids|
        invariant forall x :: x in issues <==> (x in before ||
          (x.NodeUnknownCapability? && x.index == i && x.id in ids[..k] && x.id !in known))
      {
        if ids[k] !in known {
          issues := issues + [NodeUnknownCapability(i, ids[k])];
        }
      }
    }
  }

  /** Every diagnostic is reported exactly when its meaning holds. */
  method Validate(suite: Suite) returns (issues: seq<Issue>)
    ensures forall x :: x in issues <==> Holds(suite, x)
  {
    issues := SessionIssues(suite);
    var more := CheckIssues(suite);
    issues := issues + more;
    more := CoverageIssues(suite);
    issues := issues + more;
    if suite.graph.Some? && suite.matrix.None? {
      issues := issues + [GraphWithoutMatrix];
    }
    more := NodeIssues(suite);
    issues := issues + more;
  }
}
