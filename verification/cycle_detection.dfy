/** The depth-first cycle detector of the scenario graph schema: one shared
    `visiting` set, one shared `visited` set, one recursive search per node. */
module CycleDetection {
  import opened Collections

  /** The dependency relation: pairs (from, to). */
  type Links = set<(string, string)>

  function Successors(outgoing: map<string, seq<string>>, node: string): seq<string> {
    if node in outgoing then outgoing[node] else []
  }

  ghost predicate Represents(outgoing: map<string, seq<string>>, links: Links) {
    forall a, b :: b in Successors(outgoing, a) <==> (a, b) in links
  }

  ghost predicate Walk(links: Links, w: seq<string>) {
    forall i :: 0 <= i < |w| - 1 ==> (w[i], w[i + 1]) in links
  }

  /** A walk that returns to an earlier node: a cycle together with a way to it. */
  ghost predicate Lasso(links: Links, w: seq<string>, back: nat) {
    && back + 1 < |w|
    && Walk(links, w)
    && w[back] == w[|w| - 1]
  }

  ghost predicate ReachesCycle(links: Links, roots: set<string>) {
    exists w: seq<string>, back: nat :: Lasso(links, w, back) && w[0] in roots
  }

  ghost predicate HasCycle(links: Links) {
    exists c: seq<string> :: Lasso(links, c, 0)
  }

  /** Every link leads to a node listed strictly earlier. */
  ghost predicate Topological(links: Links, order: seq<string>) {
    && Distinct(order)
    && forall i, b :: 0 <= i < |order| && (order[i], b) in links ==> b in order[..i]
  }

  ghost function Position(order: seq<string>, x: string): (i: nat)
    requires x in order
    ensures i < |order| && order[i] == x
  {
    var i :| 0 <= i < |order| && order[i] == x;
    i
  }

  lemma {:induction false} WalkDescends(links: Links, order: seq<string>, w: seq<string>, i: nat, j: nat)
    requires Topological(links, order) && Walk(links, w)
    requires i < j < |w| && w[i] in order
    ensures w[j] in order && Position(order, w[j]) < Position(order, w[i])
    decreases j - i
  {
    var p := Position(order, w[i]);
    assert (order[p], w[i + 1]) in links;
    var q :| 0 <= q < p && order[..p][q] == w[i + 1];
    assert order[q] == w[i + 1] && q == Position(order, w[i + 1]);
    if i + 1 < j {
      WalkDescends(links, order, w, i + 1, j);
    }
  }

  /** No cycle is reachable from any node of a topological listing. */
  lemma TopologicalExcludesCycles(links: Links, order: seq<string>)
    requires Topological(links, order)
    ensures !ReachesCycle(links, Elements(order))
  {
    if ReachesCycle(links, Elements(order)) {
      var w: seq<string>, back: nat :| Lasso(links, w, back) && w[0] in Elements(order);
      if back > 0 {
        WalkDescends(links, order, w, 0, back);
      }
      WalkDescends(links, order, w, back, |w| - 1);
    }
  }

  /** When every link leaves a root, a reachable cycle is simply a cycle. */
  lemma ReachableCycleIsCycle(links: Links, roots: set<string>)
    requires forall a, b :: (a, b) in links ==> a in roots
    ensures ReachesCycle(links, roots) <==> HasCycle(links)
  {
    if ReachesCycle(links, roots) {
      var w: seq<string>, back: nat :| Lasso(links, w, back) && w[0] in roots;
      var c := w[back..];
      assert forall i :: 0 <= i < |c| ==> c[i] == w[back + i];
      assert Lasso(links, c, 0);
    }
    if HasCycle(links) {
      var c :| Lasso(links, c, 0);
      assert (c[0], c[1]) in links;
      assert Lasso(links, c, 0) && c[0] in roots;
    }
  }

  /** A node of the set without a link into the set. */
  ghost predicate IsSink(links: Links, nodes: set<string>, x: string) {
    x in nodes && forall y :: y in nodes ==> (x, y) !in links
  }

  lemma {:induction false} GrowWalk(links: Links, nodes: set<string>, n: nat) returns (w: seq<string>)
    requires nodes != {}
    requires forall x :: !IsSink(links, nodes, x)
    ensures |w| == n + 1 && Walk(links, w) && Elements(w) <= nodes
  {
    if n == 0 {
      var x :| x in nodes;
      w := [x];
    } else {
      var v := GrowWalk(links, nodes, n - 1);
      var last := v[|v| - 1];
      assert last in Elements(v) && !IsSink(links, nodes, last);
      var y :| y in nodes && (last, y) in links;
      w := v + [y];
    }
  }

  lemma {:induction false} AcyclicHasSink(links: Links, nodes: set<string>) returns (sink: string)
    requires !HasCycle(links) && nodes != {}
    ensures IsSink(links, nodes, sink)
  {
    if forall x :: !IsSink(links, nodes, x) {
      var w := GrowWalk(links, nodes, |nodes|);
      SubsetSize(Elements(w), nodes);
      SetSizeDecidesDistinct(w);
      var i, j :| 0 <= i < j < |w| && w[i] == w[j];
      var c := w[i..j + 1];
      assert forall k :: 0 <= k < |c| ==> c[k] == w[i + k];
      assert Lasso(links, c, 0);
      assert false;
    }
    sink :| IsSink(links, nodes, sink);
  }

  lemma {:induction false} SubsetSize(a: set<string>, b: set<string>)
    requires a <= b
    ensures |a| <= |b|
  {
    assert b == a + (b - a);
  }

  lemma {:induction false} AcyclicHasOrder(links: Links, nodes: set<string>) returns (order: seq<string>)
    requires !HasCycle(links)
    requires forall a, b :: (a, b) in links ==> b in nodes
    ensures Topological(links, order) && Elements(order) == nodes
  {
    order := OrderWithin(links, nodes);
    forall i, b | 0 <= i < |order| && (order[i], b) in links
      ensures b in order[..i]
    {
      assert b in Elements(order);
    }
  }

  lemma {:induction false} OrderWithin(links: Links, nodes: set<string>) returns (order: seq<string>)
    requires !HasCycle(links)
    ensures Distinct(order) && Elements(order) == nodes
    ensures forall i, b :: 0 <= i < |order| && (order[i], b) in links && b in nodes ==> b in order[..i]
    decreases nodes
  {
    if nodes == {} {
      order := [];
    } else {
      var sink := AcyclicHasSink(links, nodes);
      var rest := OrderWithin(links, nodes - {sink});
      order := [sink] + rest;
      assert Elements(order) == {sink} + Elements(rest);
      assert forall i :: 0 < i < |order| ==> order[i] == rest[i - 1] && order[i] in Elements(rest);
      forall i, b | 0 <= i < |order| && (order[i], b) in links && b in nodes
        ensures b in order[..i]
      {
        if i > 0 {
          assert order[..i] == [sink] + rest[..i - 1];
          assert (rest[i - 1], b) in links;
          assert b == sink || b in nodes - {sink};
        }
      }
    }
  }

  /** A rank that strictly increases along every link exists exactly for
      acyclic relations. */
  ghost predicate Ranks(links: Links, rank: map<string, nat>) {
    forall a, b :: (a, b) in links ==> a in rank && b in rank && rank[a] < rank[b]
  }

  lemma {:induction false} AcyclicIffRanked(links: Links)
    ensures !HasCycle(links) <==> exists rank :: Ranks(links, rank)
  {
    if !HasCycle(links) {
      var nodes := (set l | l in links :: l.0) + (set l | l in links :: l.1);
      var order := AcyclicHasOrder(links, nodes);
      var rank: map<string, nat> := map x | x in nodes :: |order| - Position(order, x);
      forall a, b | (a, b) in links
        ensures a in rank && b in rank && rank[a] < rank[b]
      {
        assert a in nodes && b in nodes;
        assert Walk(links, [a, b]) && a in Elements(order);
        WalkDescends(links, order, [a, b], 0, 1);
      }
      assert Ranks(links, rank);
    }
    if rank :| Ranks(links, rank) {
      if c :| Lasso(links, c, 0) {
        RankClimbs(links, rank, c, |c| - 1);
      }
    }
  }

  lemma {:induction false} RankClimbs(links: Links, rank: map<string, nat>, w: seq<string>, j: nat)
    requires Ranks(links, rank) && Walk(links, w)
    requires 0 < j < |w|
    ensures w[0] in rank && w[j] in rank && rank[w[0]] < rank[w[j]]
  {
    assert (w[j - 1], w[j - 1 + 1]) in links;
    if j > 1 {
      RankClimbs(links, rank, w, j - 1);
    }
  }

  /** The closure state of the recursive search. */
  class Detector {
    const outgoing: map<string, seq<string>>
    var visiting: set<string>
    var visited: set<string>
    ghost const links: Links
    ghost const universe: set<string>
    /** Nodes in the order in which they entered `visited`. */
    ghost var finished: seq<string>

    ghost predicate Valid()
      reads this
    {
      && Represents(outgoing, links)
      && (forall a, b :: (a, b) in links ==> b in universe)
      && Elements(finished) == visited
      && Topological(links, finished)
      && visiting !! visited
    }

    constructor (outgoing: map<string, seq<string>>, ghost links: Links, ghost universe: set<string>)
      requires Represents(outgoing, links)
      requires forall a, b :: (a, b) in links ==> b in universe
      ensures Valid() && visiting == {} && visited == {} && finished == []
      ensures this.outgoing == outgoing && this.links == links && this.universe == universe
    {
      this.outgoing := outgoing;
      this.links := links;
      this.universe := universe;
      visiting, visited := {}, {};
      finished := [];
    }

    /** `stack` is the chain of nodes being visited, `lasso` the evidence for a
        positive answer. A negative answer restores `visiting` and finishes the
        node; a positive one leaves the sets as they are, as the source does. */
    method Search(node: string, ghost stack: seq<string>)
      returns (cyclic: bool, ghost lasso: seq<string>, ghost back: nat)
      requires Valid() && visiting == Elements(stack) && node in universe
      requires Walk(links, stack + [node])
      modifies this
      ensures !cyclic ==> Valid() && visiting == old(visiting) && node in visited && old(finished) <= finished
      ensures cyclic ==> Lasso(links, lasso, back) && lasso[0] == (stack + [node])[0]
      decreases universe - visiting - visited
    {
      lasso, back := stack + [node], 0;
      if node in visiting {
        back :| 0 <= back < |stack| && stack[back] == node;
        return true, lasso, back;
      }
      if node in visited {
        return false, lasso, back;
      }
      visiting := visiting + {node};
      ghost var deeper := stack + [node];
      Pushed(stack, node);
      var targets := Successors(outgoing, node);
      for i := 0 to |targets|
        invariant Valid() && visiting == old(visiting) + {node} && visiting == Elements(deeper)
        invariant old(finished) <= finished && node !in visited
        invariant forall j :: 0 <= j < i ==> targets[j] in visited
      {
        WalkExtends(links, deeper, targets[i]);
        assert old(visited) <= visited;
        OneFewerToSearch(universe, old(visiting), old(visited), visited, node);
        cyclic, lasso, back := Search(targets[i], deeper);
        if cyclic {
          return;
        }
      }
      Finish(node);
      return false, lasso, back;
    }

    method Finish(node: string)
      requires Valid() && node in visiting
      requires forall b :: (node, b) in links ==> b in visited
      modifies this
      ensures Valid() && visiting == old(visiting) - {node} && visited == old(visited) + {node}
      ensures finished == old(finished) + [node]
    {
      visiting := visiting - {node};
      visited := visited + {node};
      finished := finished + [node];
      assert forall i :: 0 <= i < |finished| ==> finished[..i] == old(finished)[..i] || i == |old(finished)|;
    }
  }

  lemma Pushed(stack: seq<string>, node: string)
    ensures Elements(stack + [node]) == Elements(stack) + {node}
  {
    assert forall x :: x in stack + [node] <==> x in stack || x == node;
  }

  lemma WalkExtends(links: Links, w: seq<string>, target: string)
    requires w != [] && Walk(links, w) && (w[|w| - 1], target) in links
    ensures Walk(links, w + [target])
  {
  }

  lemma OneFewerToSearch(universe: set<string>, visiting: set<string>, before: set<string>, now: set<string>, node: string)
    requires node in universe && node !in visiting && node !in before && before <= now
    ensures universe - (visiting + {node}) - now < universe - visiting - before
  {
    assert node in universe - visiting - before;
  }

  /** `nodeIds.some(hasCycle)`: true exactly when a cycle can be reached from a
      listed node; otherwise the finishing order is a topological listing. */
  method AnyCycle(nodeIds: seq<string>, outgoing: map<string, seq<string>>, ghost links: Links)
    returns (cyclic: bool, ghost order: seq<string>)
    requires Represents(outgoing, links)
    ensures cyclic <==> ReachesCycle(links, Elements(nodeIds))
    ensures !cyclic ==> Topological(links, order) && Elements(nodeIds) <= Elements(order)
  {
    ghost var universe := Elements(nodeIds) + (set l | l in links :: l.1);
    var detector := new Detector(outgoing, links, universe);
    for i := 0 to |nodeIds|
      invariant detector.Valid() && detector.visiting == {}
      invariant detector.links == links && detector.universe == universe
      invariant forall j :: 0 <= j < i ==> nodeIds[j] in detector.visited
    {
      assert Elements<string>([]) == {};
      ghost var lasso: seq<string>, back: nat;
      cyclic, lasso, back := detector.Search(nodeIds[i], []);
      if cyclic {
        assert Lasso(links, lasso, back) && lasso[0] in Elements(nodeIds);
        return true, [];
      }
    }
    TopologicalExcludesCycles(links, detector.finished);
    return false, detector.finished;
  }
}
