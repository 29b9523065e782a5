/** The private scenario graph and the refinement that admits it. */
module ScenarioGraph {
  import opened Collections
  import Text
  import CycleDetection

  datatype NodeKind = Required | Distractor

  datatype Node = Node(
    id: string,
    taskSlug: string,
    kind: NodeKind,
    capabilityIds: seq<string>,
    weight: real,
    avoidanceEvaluatorName: Option<string>)

  datatype Relation = Requires | Informs | Revises

  datatype Edge = Edge(
    id: string,
    fromNodeId: string,
    toNodeId: string,
    relation: Relation,
    required: bool,
    weight: real,
    proofEvaluatorName: Option<string>)

  datatype FaultKind = StaleView | RejectedMutation | InterruptedNavigation

  datatype FaultAction = Read | Mutation | Navigation

  datatype Fault = Fault(
    id: string,
    nodeId: string,
    kind: FaultKind,
    action: FaultAction,
    occurrence: nat,
    requiredRecovery: bool,
    weight: real)

  datatype Graph = Graph(nodes: seq<Node>, edges: seq<Edge>, faultSchedule: seq<Fault>)

  predicate NonEmptyNames(names: seq<string>) {
    names != [] && forall name :: name in names ==> name != ""
  }

  /** The per-node schema: evaluators of avoidance belong to distractors only. */
  predicate NodeOk(n: Node) {
    && n.id != "" && n.taskSlug != "" && NonEmptyNames(n.capabilityIds) && n.weight >= 0.0
    && (n.kind.Distractor? <==> n.avoidanceEvaluatorName.Some?)
    && n.avoidanceEvaluatorName != Some("")
  }

  /** The per-edge schema: proof evaluators belong to revisions only. */
  predicate EdgeOk(e: Edge) {
    && e.id != "" && e.fromNodeId != "" && e.toNodeId != "" && e.weight >= 0.0
    && (e.relation.Revises? <==> e.proofEvaluatorName.Some?)
    && e.proofEvaluatorName != Some("")
  }

  predicate FaultOk(f: Fault) {
    f.id != "" && f.nodeId != "" && f.occurrence > 0 && f.weight >= 0.0
  }

  predicate FieldsOk(g: Graph) {
    && g.nodes != []
    && (forall i :: 0 <= i < |g.nodes| ==> NodeOk(g.nodes[i]))
    && (forall i :: 0 <= i < |g.edges| ==> EdgeOk(g.edges[i]))
    && (forall i :: 0 <= i < |g.faultSchedule| ==> FaultOk(g.faultSchedule[i]))
  }

  function NodeIds(g: Graph): seq<string> {
    seq(|g.nodes|, i requires 0 <= i < |g.nodes| => g.nodes[i].id)
  }

  function EdgeIds(g: Graph): seq<string> {
    seq(|g.edges|, i requires 0 <= i < |g.edges| => g.edges[i].id)
  }

  function FaultIds(g: Graph): seq<string> {
    seq(|g.faultSchedule|, i requires 0 <= i < |g.faultSchedule| => g.faultSchedule[i].id)
  }

  ghost function LinksOf(edges: seq<Edge>): CycleDetection.Links {
    set i | 0 <= i < |edges| :: (edges[i].fromNodeId, edges[i].toNodeId)
  }

  /** `new Map(nodes.map(...)).get(id)`: the last node with that id. */
  function NodeById(nodes: seq<Node>, id: string): (found: Option<Node>)
    ensures found.Some? <==> exists i :: 0 <= i < |nodes| && nodes[i].id == id
    ensures found.Some? ==> found.value in nodes && found.value.id == id
  {
    if nodes == [] then None
    else if nodes[|nodes| - 1].id == id then Some(nodes[|nodes| - 1])
    else NodeById(nodes[..|nodes| - 1], id)
  }

  // Fault triggers -------------------------------------------------------

  /** One HTTP request is either a mutation or a navigation that also reads. */
  datatype RequestClass = MutationRequest | ReadRequest

  function ClassOf(action: FaultAction): RequestClass {
    if action.Mutation? then MutationRequest else ReadRequest
  }

  function ClassName(c: RequestClass): string {
    if c.MutationRequest? then "mutation" else "read-navigation"
  }

  function TriggerTask(g: Graph, f: Fault): string {
    var node := NodeById(g.nodes, f.nodeId);
    if node.Some? then node.value.taskSlug else f.nodeId
  }

  lemma {:induction false} LastNodeWins(nodes: seq<Node>, i: nat)
    requires i < |nodes| && forall j :: i < j < |nodes| ==> nodes[j].id != nodes[i].id
    ensures NodeById(nodes, nodes[i].id) == Some(nodes[i])
  {
    if i < |nodes| - 1 {
      LastNodeWins(nodes[..|nodes| - 1], i);
    }
  }

  /** A fault belongs to the session of its node, of several with that id the last, and
      without one to a session of its own. */
  lemma TriggerTaskMeaning(g: Graph, f: Fault, i: nat)
    ensures i < |g.nodes| && g.nodes[i].id == f.nodeId && f.nodeId !in NodeIds(g)[i + 1..] ==>
      TriggerTask(g, f) == g.nodes[i].taskSlug
    ensures f.nodeId !in NodeIds(g) ==> TriggerTask(g, f) == f.nodeId
  {
    if i < |g.nodes| && g.nodes[i].id == f.nodeId && f.nodeId !in NodeIds(g)[i + 1..] {
      forall j | i < j < |g.nodes|
        ensures g.nodes[j].id != f.nodeId
      {
        assert NodeIds(g)[i + 1..][j - i - 1] == g.nodes[j].id;
      }
      LastNodeWins(g.nodes, i);
    }
    if f.nodeId !in NodeIds(g) {
      forall j | 0 <= j < |g.nodes|
        ensures g.nodes[j].id != f.nodeId
      {
        assert NodeIds(g)[j] == g.nodes[j].id;
      }
    }
  }

  function TriggerKey(g: Graph, f: Fault): string {
    TriggerTask(g, f) + ":" + ClassName(ClassOf(f.action)) + ":" + Text.Decimal(f.occurrence)
  }

  ghost predicate SameTrigger(g: Graph, f: Fault, h: Fault) {
    && TriggerTask(g, f) == TriggerTask(g, h)
    && ClassOf(f.action) == ClassOf(h.action)
    && f.occurrence == h.occurrence
  }

  /** The joined trigger key identifies task, request class and occurrence even
      when a task slug itself contains colons. */
  lemma TriggerKeyIdentifiesTrigger(g: Graph, f: Fault, h: Fault)
    ensures TriggerKey(g, f) == TriggerKey(g, h) <==> SameTrigger(g, f, h)
  {
    if TriggerKey(g, f) == TriggerKey(g, h) {
      var (tf, cf, df) := (TriggerTask(g, f), ClassName(ClassOf(f.action)), Text.Decimal(f.occurrence));
      var (th, ch, dh) := (TriggerTask(g, h), ClassName(ClassOf(h.action)), Text.Decimal(h.occurrence));
      Text.DecimalRoundTrip(f.occurrence);
      Text.DecimalRoundTrip(h.occurrence);
      Text.SplitAtLastColon(tf + ":" + cf, df, th + ":" + ch, dh);
      Text.SplitAtLastColon(tf, cf, th, ch);
      assert |cf| == |ch|;
    }
  }

  // Diagnostics ----------------------------------------------------------

  datatype Issue =
    | DuplicateNodeIds
    | DuplicateEdgeIds
    | DuplicateFaultIds
    | UnknownEndpoint(index: nat)
    | SelfEdge(index: nat)
    | UnknownFaultNode(index: nat)
    | DuplicateTrigger
    | CyclicDependencies

  /** What each diagnostic means. */
  ghost predicate Holds(g: Graph, issue: Issue) {
    match issue
    case DuplicateNodeIds => !Distinct(NodeIds(g))
    case DuplicateEdgeIds => !Distinct(EdgeIds(g))
    case DuplicateFaultIds => !Distinct(FaultIds(g))
    case UnknownEndpoint(i) =>
      i < |g.edges| && (g.edges[i].fromNodeId !in NodeIds(g) || g.edges[i].toNodeId !in NodeIds(g))
    case SelfEdge(i) => i < |g.edges| && g.edges[i].fromNodeId == g.edges[i].toNodeId
    case UnknownFaultNode(i) => i < |g.faultSchedule| && g.faultSchedule[i].nodeId !in NodeIds(g)
    case DuplicateTrigger =>
      exists i, j :: 0 <= i < j < |g.faultSchedule| && SameTrigger(g, g.faultSchedule[i], g.faultSchedule[j])
    case CyclicDependencies => CycleDetection.ReachesCycle(LinksOf(g.edges), Elements(NodeIds(g)))
  }

  method IdIssues(g: Graph) returns (issues: seq<Issue>)
    ensures forall x :: x in issues <==>
      (x.DuplicateNodeIds? || x.DuplicateEdgeIds? || x.DuplicateFaultIds?) && Holds(g, x)
  {
    issues := [];
    var lists := [(DuplicateNodeIds, NodeIds(g)), (DuplicateEdgeIds, EdgeIds(g)), (DuplicateFaultIds, FaultIds(g))];
    for i := 0 to |lists|
      invariant forall x :: x in issues <==> exists k :: 0 <= k < i && lists[k].0 == x && !Distinct(lists[k].1)
    {
      SetSizeDecidesDistinct(lists[i].1);
      if |Elements(lists[i].1)| != |lists[i].1| {
        issues := issues + [lists[i].0];
      }
    }
    forall x | x in issues
      ensures (x.DuplicateNodeIds? || x.DuplicateEdgeIds? || x.DuplicateFaultIds?) && Holds(g, x)
    {
      var k :| 0 <= k < 3 && lists[k].0 == x && !Distinct(lists[k].1);
      assert k == 0 || k == 1 || k == 2;
    }
    assert lists[0].0 == DuplicateNodeIds && lists[1].0 == DuplicateEdgeIds && lists[2].0 == DuplicateFaultIds;
  }

  method ReferenceIssues(g: Graph) returns (issues: seq<Issue>)
    ensures forall x :: x in issues <==>
      (x.UnknownEndpoint? || x.SelfEdge? || x.UnknownFaultNode?) && Holds(g, x)
  {
    issues := [];
    var knownNodes := Elements(NodeIds(g));
    for i := 0 to |g.edges|
      invariant forall x :: x in issues <==> (x.UnknownEndpoint? || x.SelfEdge?) && x.index < i && Holds(g, x)
    {
      var edge := g.edges[i];
      if edge.fromNodeId !in knownNodes || edge.toNodeId !in knownNodes {
        issues := issues + [UnknownEndpoint(i)];
      }
      if edge.fromNodeId == edge.toNodeId {
        issues := issues + [SelfEdge(i)];
      }
    }
    for i := 0 to |g.faultSchedule|
      invariant forall x :: x in issues <==>
        && Holds(g, x)
        && (x.UnknownEndpoint? || x.SelfEdge? || (x.UnknownFaultNode? && x.index < i))
    {
      if g.faultSchedule[i].nodeId !in knownNodes {
        issues := issues + [UnknownFaultNode(i)];
      }
    }
  }

  method TriggersRepeat(g: Graph) returns (repeats: bool)
    ensures repeats <==> Holds(g, DuplicateTrigger)
  {
    var faults := g.faultSchedule;
    var keys := seq(|faults|, i requires 0 <= i < |faults| => TriggerKey(g, faults[i]));
    repeats := |Elements(keys)| != |keys|;
    SetSizeDecidesDistinct(keys);
    forall i, j | 0 <= i < j < |faults|
      ensures keys[i] == keys[j] <==> SameTrigger(g, faults[i], faults[j])
    {
      TriggerKeyIdentifiesTrigger(g, faults[i], faults[j]);
    }
  }

  ghost predicate Linked(edges: seq<Edge>, a: string, b: string) {
    exists k :: 0 <= k < |edges| && edges[k].fromNodeId == a && edges[k].toNodeId == b
  }

  lemma LinkedExtends(edges: seq<Edge>, edge: Edge, a: string, b: string)
    ensures Linked(edges + [edge], a, b) <==> Linked(edges, a, b) || (edge.fromNodeId == a && edge.toNodeId == b)
  {
    var more := edges + [edge];
    assert more[|edges|] == edge;
    assert forall k :: 0 <= k < |edges| ==> more[k] == edges[k];
  }

  method OutgoingOf(edges: seq<Edge>) returns (outgoing: map<string, seq<string>>)
    ensures CycleDetection.Represents(outgoing, LinksOf(edges))
  {
    outgoing := map[];
    for i := 0 to |edges|
      invariant forall a, b :: b in CycleDetection.Successors(outgoing, a) <==> Linked(edges[..i], a, b)
    {
      ghost var before := outgoing;
      var targets := CycleDetection.Successors(outgoing, edges[i].fromNodeId);
      outgoing := outgoing[edges[i].fromNodeId := targets + [edges[i].toNodeId]];
      assert edges[..i + 1] == edges[..i] + [edges[i]];
      forall a, b
        ensures b in CycleDetection.Successors(outgoing, a) <==> Linked(edges[..i + 1], a, b)
      {
        LinkedExtends(edges[..i], edges[i], a, b);
        assert b in CycleDetection.Successors(before, a) <==> Linked(edges[..i], a, b);
      }
    }
    assert edges[..|edges|] == edges;
    assert forall a, b :: Linked(edges, a, b) <==> (a, b) in LinksOf(edges);
  }

  /** Every diagnostic is reported exactly when its meaning holds. When no cycle
      is reported, `order` lists every node after all its successors. */
  method Validate(g: Graph) returns (issues: seq<Issue>, ghost order: seq<string>)
    ensures forall x :: x in issues <==> Holds(g, x)
    ensures CyclicDependencies !in issues ==>
      CycleDetection.Topological(LinksOf(g.edges), order) && Elements(NodeIds(g)) <= Elements(order)
  {
    var ids := IdIssues(g);
    var references := ReferenceIssues(g);
    issues := ids + references;
    var repeats := TriggersRepeat(g);
    if repeats {
      issues := issues + [DuplicateTrigger];
    }
    var outgoing := OutgoingOf(g.edges);
    var cyclic;
    cyclic, order := CycleDetection.AnyCycle(NodeIds(g), outgoing, LinksOf(g.edges));
    if cyclic {
      issues := issues + [CyclicDependencies];
    }
  }

  /** The graphs the schema lets through. */
  ghost predicate Accepted(g: Graph) {
    FieldsOk(g) && forall x :: !Holds(g, x)
  }

  ghost predicate RankedEdges(edges: seq<Edge>, rank: map<string, nat>) {
    forall i :: 0 <= i < |edges| ==>
      && edges[i].fromNodeId in rank && edges[i].toNodeId in rank
      && rank[edges[i].fromNodeId] < rank[edges[i].toNodeId]
  }

  /** An accepted graph is a dependency order: no cycle exists at all, and some
      rank strictly increases along every edge. */
  lemma AcceptedGraphIsRanked(g: Graph)
    requires Accepted(g)
    ensures !CycleDetection.HasCycle(LinksOf(g.edges))
    ensures exists rank :: RankedEdges(g.edges, rank)
  {
    var links := LinksOf(g.edges);
    assert !Holds(g, CyclicDependencies);
    forall a, b | (a, b) in links
      ensures a in Elements(NodeIds(g))
    {
      var i :| 0 <= i < |g.edges| && (g.edges[i].fromNodeId, g.edges[i].toNodeId) == (a, b);
      assert !Holds(g, UnknownEndpoint(i));
    }
    CycleDetection.ReachableCycleIsCycle(links, Elements(NodeIds(g)));
    CycleDetection.AcyclicIffRanked(links);
    var rank :| CycleDetection.Ranks(links, rank);
    forall i | 0 <= i < |g.edges|
      ensures && g.edges[i].fromNodeId in rank && g.edges[i].toNodeId in rank
              && rank[g.edges[i].fromNodeId] < rank[g.edges[i].toNodeId]
    {
      assert (g.edges[i].fromNodeId, g.edges[i].toNodeId) in links;
    }
    assert RankedEdges(g.edges, rank);
  }

  /** With known endpoints, the cycle diagnostic means that a cycle exists. */
  lemma CycleDiagnosticIsExact(g: Graph)
    requires forall i :: !Holds(g, UnknownEndpoint(i))
    ensures Holds(g, CyclicDependencies) <==> CycleDetection.HasCycle(LinksOf(g.edges))
  {
    var links := LinksOf(g.edges);
    forall a, b | (a, b) in links
      ensures a in Elements(NodeIds(g))
    {
      var i :| 0 <= i < |g.edges| && (g.edges[i].fromNodeId, g.edges[i].toNodeId) == (a, b);
      assert !Holds(g, UnknownEndpoint(i));
    }
    CycleDetection.ReachableCycleIsCycle(links, Elements(NodeIds(g)));
  }
}
