/** The capability matrix and the refinement that admits it. */
module CapabilityMatrix {
  import opened Collections
  import Text

  datatype Dimension =
    | FinalState
    | DependencyConsistency
    | EvidenceVerification
    | RecoverySafety
    | InteractionCost

  datatype Capability = Capability(id: string, title: string, required: bool)

  datatype DimensionWeight = DimensionWeight(id: Dimension, weight: real, required: bool)

  datatype Budget = Budget(preferredMaxActions: nat, hardMaxActions: nat)

  datatype Coverage = Coverage(
    taskSlug: string,
    variantId: string,
    capabilityIds: seq<string>,
    dimensionIds: seq<Dimension>,
    budget: Option<Budget>)

  datatype Matrix = Matrix(
    capabilities: seq<Capability>,
    dimensions: seq<DimensionWeight>,
    coverage: seq<Coverage>)

  predicate CoverageOk(c: Coverage) {
    && c.taskSlug != "" && c.variantId != ""
    && c.capabilityIds != [] && (forall id :: id in c.capabilityIds ==> id != "")
    && c.dimensionIds != []
    && (c.budget.Some? ==> 0 < c.budget.value.preferredMaxActions < c.budget.value.hardMaxActions)
  }

  predicate FieldsOk(m: Matrix) {
    && m.capabilities != [] && m.dimensions != [] && m.coverage != []
    && (forall i :: 0 <= i < |m.capabilities| ==> m.capabilities[i].id != "" && m.capabilities[i].title != "")
    && (forall i :: 0 <= i < |m.dimensions| ==> 0.0 < m.dimensions[i].weight <= 1.0)
    && (forall i :: 0 <= i < |m.coverage| ==> CoverageOk(m.coverage[i]))
  }

  function IdsOfCapabilities(capabilities: seq<Capability>): seq<string> {
    seq(|capabilities|, i requires 0 <= i < |capabilities| => capabilities[i].id)
  }

  function IdsOfDimensions(dimensions: seq<DimensionWeight>): seq<Dimension> {
    seq(|dimensions|, i requires 0 <= i < |dimensions| => dimensions[i].id)
  }

  function CapabilityIds(m: Matrix): seq<string> {
    IdsOfCapabilities(m.capabilities)
  }

  function DimensionIds(m: Matrix): seq<Dimension> {
    IdsOfDimensions(m.dimensions)
  }

  function CoverageKey(c: Coverage): string {
    c.taskSlug + ":" + c.variantId
  }

  function CoverageKeys(m: Matrix): seq<string> {
    seq(|m.coverage|, i requires 0 <= i < |m.coverage| => CoverageKey(m.coverage[i]))
  }

  function DeclaredWeight(dimensions: seq<DimensionWeight>): real {
    if dimensions == [] then 0.0 else dimensions[0].weight + DeclaredWeight(dimensions[1..])
  }

  predicate WeightsSumToOne(dimensions: seq<DimensionWeight>) {
    -0.000001 <= DeclaredWeight(dimensions) - 1.0 <= 0.000001
  }

  /** Two coverage entries at different positions cover this item. */
  ghost predicate CoveredTwice(m: Matrix, covers: Coverage -> bool) {
    TwoSatisfy(covers, m.coverage)
  }

  datatype Issue =
    | DuplicateCapabilities
    | DuplicateDimensions
    | DuplicateCoverage
    | WeightSum
    | UnknownCapability(index: nat, id: string)
    | UndeclaredDimension(index: nat, dimension: Dimension)
    | MissingBudget(index: nat)
    | UnexpectedBudget(index: nat)
    | GatingInteractionCost
    | ThinCapability(id: string)
    | ThinDimension(dimension: Dimension)

  function CoversCapability(id: string): Coverage -> bool {
    (c: Coverage) => id in c.capabilityIds
  }

  function CoversDimension(d: Dimension): Coverage -> bool {
    (c: Coverage) => d in c.dimensionIds
  }

  /** What each diagnostic means. */
  ghost predicate Holds(m: Matrix, issue: Issue) {
    match issue
    case DuplicateCapabilities => !Distinct(CapabilityIds(m))
    case DuplicateDimensions => !Distinct(DimensionIds(m))
    case DuplicateCoverage => !Distinct(CoverageKeys(m))
    case WeightSum => !WeightsSumToOne(m.dimensions)
    case UnknownCapability(i, id) =>
      i < |m.coverage| && id in m.coverage[i].capabilityIds && id !in CapabilityIds(m)
    case UndeclaredDimension(i, d) =>
      i < |m.coverage| && d in m.coverage[i].dimensionIds && d !in DimensionIds(m)
    case MissingBudget(i) =>
      i < |m.coverage| && InteractionCost in m.coverage[i].dimensionIds && m.coverage[i].budget.None?
    case UnexpectedBudget(i) =>
      i < |m.coverage| && InteractionCost !in m.coverage[i].dimensionIds && m.coverage[i].budget.Some?
    case GatingInteractionCost =>
      exists i :: 0 <= i < |m.dimensions| && m.dimensions[i].id == InteractionCost && m.dimensions[i].required
        && InteractionCost !in DimensionIds(m)[..i]
    case ThinCapability(id) => id in CapabilityIds(m) && !CoveredTwice(m, CoversCapability(id))
    case ThinDimension(d) => d in DimensionIds(m) && !CoveredTwice(m, CoversDimension(d))
  }

  /** The matrices the schema lets through. */
  ghost predicate Accepted(m: Matrix) {
    FieldsOk(m) && forall x :: !Holds(m, x)
  }

  predicate IsEntryIssue(x: Issue) {
    x.UnknownCapability? || x.UndeclaredDimension? || x.MissingBudget? || x.UnexpectedBudget?
  }

  method EntryIssues(m: Matrix) returns (issues: seq<Issue>)
    ensures forall x :: x in issues <==> IsEntryIssue(x) && Holds(m, x)
  {
    issues := [];
    var knownCapabilities, knownDimensions := Elements(CapabilityIds(m)), Elements(DimensionIds(m));
    for i := 0 to |m.coverage|
      invariant forall x :: x in issues <==> IsEntryIssue(x) && x.index < i && Holds(m, x)
    {
      var entry := m.coverage[i];
      ghost var before := issues;
      for k := 0 to |entry.capabilityIds|
        invariant forall x :: x in issues <==> (x in before ||
          (x.UnknownCapability? && x.index == i && x.id in entry.capabilityIds[..k] && x.id !in knownCapabilities))
      {
        if entry.capabilityIds[k] !in knownCapabilities {
          issues := issues + [UnknownCapability(i, entry.capabilityIds[k])];
        }
      }
      ghost var middle := issues;
      for k := 0 to |entry.dimensionIds|
        invariant forall x :: x in issues <==> (x in middle ||
          (x.UndeclaredDimension? && x.index == i && x.dimension in entry.dimensionIds[..k]
            && x.dimension !in knownDimensions))
      {
        if entry.dimensionIds[k] !in knownDimensions {
          issues := issues + [UndeclaredDimension(i, entry.dimensionIds[k])];
        }
      }
      var measuresInteractionCost := InteractionCost in entry.dimensionIds;
      if measuresInteractionCost != entry.budget.Some? {
        issues := issues + [if measuresInteractionCost then MissingBudget(i) else UnexpectedBudget(i)];
      }
    }
  }

  method ThinIssues(m: Matrix) returns (issues: seq<Issue>)
    ensures forall x :: x in issues <==> (x.ThinCapability? || x.ThinDimension?) && Holds(m, x)
  {
    issues := [];
    var capabilityIds, dimensionIds := CapabilityIds(m), DimensionIds(m);
    for k := 0 to |capabilityIds|
      invariant forall x :: x in issues <==>
        x.ThinCapability? && x.id in capabilityIds[..k] && !CoveredTwice(m, CoversCapability(x.id))
    {
      FilterCountsTwo(CoversCapability(capabilityIds[k]), m.coverage);
      if |Filter(CoversCapability(capabilityIds[k]), m.coverage)| < 2 {
        issues := issues + [ThinCapability(capabilityIds[k])];
      }
    }
    ghost var before := issues;
    for k := 0 to |dimensionIds|
      invariant forall x :: x in issues <==> (x in before ||
        (x.ThinDimension? && x.dimension in dimensionIds[..k] && !CoveredTwice(m, CoversDimension(x.dimension))))
    {
      FilterCountsTwo(CoversDimension(dimensionIds[k]), m.coverage);
      if |Filter(CoversDimension(dimensionIds[k]), m.coverage)| < 2 {
        issues := issues + [ThinDimension(dimensionIds[k])];
      }
    }
  }

  method DimensionIssues(m: Matrix) returns (issues: seq<Issue>)
    ensures forall x :: x in issues <==> (x.WeightSum? || x.GatingInteractionCost?) && Holds(m, x)
  {
    issues := if WeightsSumToOne(m.dimensions) then [] else [WeightSum];
    ghost var before := issues;
    for i := 0 to |m.dimensions|
      invariant issues == before && InteractionCost !in DimensionIds(m)[..i]
    {
      if m.dimensions[i].id == InteractionCost {
        if m.dimensions[i].required {
          issues := issues + [GatingInteractionCost];
        }
        assert DimensionIds(m)[i] == InteractionCost;
        assert forall j :: i < j < |m.dimensions| ==> DimensionIds(m)[..j][i] == InteractionCost;
        assert forall j :: 0 <= j < i ==> DimensionIds(m)[..i][j] == m.dimensions[j].id;
        return;
      }
    }
    assert forall j :: 0 <= j < |m.dimensions| ==> DimensionIds(m)[..|m.dimensions|][j] == m.dimensions[j].id;
  }

  /** Every diagnostic is reported exactly when its meaning holds. */
  method Validate(m: Matrix) returns (issues: seq<Issue>)
    ensures forall x :: x in issues <==> Holds(m, x)
  {
    SetSizeDecidesDistinct(CapabilityIds(m));
    SetSizeDecidesDistinct(DimensionIds(m));
    SetSizeDecidesDistinct(CoverageKeys(m));
    issues := (if |Elements(CapabilityIds(m))| != |CapabilityIds(m)| then [DuplicateCapabilities] else [])
      + (if |Elements(DimensionIds(m))| != |DimensionIds(m)| then [DuplicateDimensions] else [])
      + (if |Elements(CoverageKeys(m))| != |CoverageKeys(m)| then [DuplicateCoverage] else []);
    var more := EntryIssues(m);
    issues := issues + more;
    more := DimensionIssues(m);
    issues := issues + more;
    more := ThinIssues(m);
    issues := issues + more;
  }

  /** In an accepted matrix no declaration of interaction cost gates. */
  lemma InteractionCostNeverGates(m: Matrix, i: nat)
    requires Accepted(m) && i < |m.dimensions| && m.dimensions[i].id == InteractionCost
    ensures !m.dimensions[i].required
  {
    assert !Holds(m, DuplicateDimensions);
    assert forall j :: 0 <= j < i ==> DimensionIds(m)[j] != DimensionIds(m)[i];
    assert !Holds(m, GatingInteractionCost);
  }

  // The coverage key -----------------------------------------------------

  ghost predicate SameVariant(a: Coverage, b: Coverage) {
    a.taskSlug == b.taskSlug && a.variantId == b.variantId
  }

  /** Some variants of two tasks are different and still share a key. */
  ghost predicate TasksCollide(a: string, b: string) {
    exists x: Coverage, y: Coverage :: VariantsCollide(a, x, b, y)
  }

  ghost predicate VariantsCollide(a: string, x: Coverage, b: string, y: Coverage) {
    && x.taskSlug == a && y.taskSlug == b && x.variantId != "" && y.variantId != ""
    && !SameVariant(x, y) && CoverageKey(x) == CoverageKey(y)
  }

  function VariantOf(taskSlug: string, variantId: string): Coverage {
    Coverage(taskSlug, variantId, ["c"], [FinalState], None)
  }

  lemma KeyIsPrefixed(c: Coverage)
    ensures CoverageKey(c) == (c.taskSlug + ":") + c.variantId
  {
  }

  /** Distinct coverage entries of two tasks can be refused as duplicates exactly
      when the tasks differ and one slug with its colon starts the other: never for
      one task, and never for slugs like `a:b` and `c`. */
  lemma CoverageKeysCollideIffPrefix(a: string, b: string)
    ensures TasksCollide(a, b) <==> a != b && (a + ":" <= b + ":" || b + ":" <= a + ":")
  {
    var p, q := a + ":", b + ":";
    Text.PrefixesMeetIffOneStartsTheOther(p, q);
    if TasksCollide(a, b) {
      var x, y :| VariantsCollide(a, x, b, y);
      KeyIsPrefixed(x);
      KeyIsPrefixed(y);
      assert Text.Meet(p, x.variantId, q, y.variantId);
      Text.PrefixCancels(p, x.variantId, y.variantId);
    }
    if a != b && (p <= q || q <= p) {
      var v, w :| Text.Meet(p, v, q, w);
      KeyIsPrefixed(VariantOf(a, v));
      KeyIsPrefixed(VariantOf(b, w));
      assert VariantsCollide(a, VariantOf(a, v), b, VariantOf(b, w));
    }
  }

  /** The joined key never misses a repeated (task, variant) pair, and it is
      exact as soon as task slugs, or else variant ids, are free of colons. */
  lemma CoverageKeyExactWithoutColons(a: Coverage, b: Coverage)
    ensures SameVariant(a, b) ==> CoverageKey(a) == CoverageKey(b)
    ensures ':' !in a.taskSlug && ':' !in b.taskSlug ==> (CoverageKey(a) == CoverageKey(b) <==> SameVariant(a, b))
    ensures ':' !in a.variantId && ':' !in b.variantId ==> (CoverageKey(a) == CoverageKey(b) <==> SameVariant(a, b))
  {
    if CoverageKey(a) == CoverageKey(b) {
      if ':' !in a.taskSlug && ':' !in b.taskSlug {
        Text.SplitAtFirstColon(a.taskSlug, a.variantId, b.taskSlug, b.variantId);
      }
      if ':' !in a.variantId && ':' !in b.variantId {
        Text.SplitAtLastColon(a.taskSlug, a.variantId, b.taskSlug, b.variantId);
      }
    }
  }

  /** The smallest such case, with entries that are valid by themselves. */
  lemma CoverageKeyCanCollide() returns (a: Coverage, b: Coverage)
    ensures CoverageOk(a) && CoverageOk(b) && !SameVariant(a, b) && CoverageKey(a) == CoverageKey(b)
  {
    a := Coverage("mail:inbox", "v1", ["c"], [FinalState], None);
    b := Coverage("mail", "inbox:v1", ["c"], [FinalState], None);
    assert CoverageKey(a) == "mail:inbox:v1" == CoverageKey(b);
  }
}
