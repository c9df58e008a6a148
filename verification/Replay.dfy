/** Counterfactual schedules: what deleting `needs:` edges can and cannot save
    (src/cadence/simulate.py:67-115, src/cadence/dag.py:125-133). */
module Replay {
  import opened Common
  import opened Dag
  import opened CriticalPath

  ghost predicate Solves(g: Graph, timings: Timings, cp: Path) {
    IsWitness(g, timings, cp) && IsOptimal(g, timings, cp)
  }

  ghost predicate IsHeaviest(g: Graph, timings: Timings, c: seq<Node>, w: real) {
    && IsChain(g, c) && ChainWeight(timings, c) == w
    && forall c' | IsChain(g, c') :: ChainWeight(timings, c') <= w
  }

  lemma SolutionIsHeaviest(g: Graph, timings: Timings, cp: Path)
    requires Solves(g, timings, cp)
    ensures IsHeaviest(g, timings, cp.path, cp.totalSeconds)
  {
  }

  lemma SolutionFinish(g: Graph, timings: Timings, cp: Path, n: Node)
    requires Solves(g, timings, cp) && n in g
    ensures n in cp.nodeFinish && IsLongestTo(g, timings, n, cp.nodeFinish[n])
  {
  }

  // ---------------------------------------------------------------- deleting edges

  /** `h` is `g` with some list entries deleted. */
  ghost predicate IsThinning(g: Graph, h: Graph) {
    h.Keys == g.Keys && forall n | n in g :: multiset(h[n]) <= multiset(g[n])
  }

  function Drop(deps: seq<Node>, dep: Node): (r: seq<Node>)
    ensures forall d :: multiset(r)[d] == if d == dep then 0 else multiset(deps)[d]
  {
    if deps == [] then []
    else
      assert deps == [deps[0]] + deps[1..];
      (if deps[0] == dep then [] else [deps[0]]) + Drop(deps[1..], dep)
  }

  function WithoutEdge(g: Graph, fromNode: Node, toNode: Node): Graph {
    map n | n in g :: if n == toNode then Drop(g[n], fromNode) else g[n]
  }

  lemma WithoutEdgeNeeds(g: Graph, u: Node, v: Node)
    ensures IsThinning(g, WithoutEdge(g, u, v))
    ensures forall n, d :: Needs(WithoutEdge(g, u, v), n, d) <==> Needs(g, n, d) && !(n == v && d == u)
  {
    var h := WithoutEdge(g, u, v);
    forall n, d ensures Needs(h, n, d) <==> Needs(g, n, d) && !(n == v && d == u) {
      if n in g { assert d in h[n] <==> multiset(h[n])[d] > 0; }
    }
    forall n | n in g ensures multiset(h[n]) <= multiset(g[n]) {
      forall d ensures multiset(h[n])[d] <= multiset(g[n])[d] {}
    }
  }

  lemma ThinningNeeds(g: Graph, h: Graph)
    requires IsThinning(g, h)
    ensures forall n, d | Needs(h, n, d) :: Needs(g, n, d)
  {
    forall n, d | Needs(h, n, d) ensures Needs(g, n, d) {
      assert multiset(h[n])[d] <= multiset(g[n])[d];
    }
  }

  lemma ThinningStaysSortable(g: Graph, h: Graph)
    requires IsThinning(g, h) && Sortable(g)
    ensures Sortable(h)
  {
    ThinningNeeds(g, h);
    forall c: seq<Node> ensures !IsCycle(h, c) {
      if IsCycle(h, c) { assert IsCycle(g, c); }
    }
    forall n, d | n in h && d in h ensures multiset(h[n])[d] <= 1 {
      assert multiset(h[n])[d] <= multiset(g[n])[d];
    }
  }

  // ---------------------------------------------------------------- the floor

  /** The slowest single job, or zero when nothing was observed. */
  ghost predicate IsFloor(timings: Timings, f: real) {
    && (timings == map[] ==> f == 0.0)
    && (timings != map[] ==> exists n :: n in timings && timings[n].TotalSeconds() == f)
    && forall n | n in timings :: timings[n].TotalSeconds() <= f
  }

  method TheoreticalFloor(timings: Timings) returns (f: real)
    ensures IsFloor(timings, f)
  {
    if timings == map[] {
      return 0.0;
    }
    var first :| first in timings;
    f := timings[first].TotalSeconds();
    var todo := timings.Keys - {first};
    while todo != {}
      invariant todo <= timings.Keys
      invariant exists n :: n in timings && timings[n].TotalSeconds() == f
      invariant forall n | n in timings && n !in todo :: timings[n].TotalSeconds() <= f
    {
      var n :| n in todo;
      f := if timings[n].TotalSeconds() > f then timings[n].TotalSeconds() else f;
      todo := todo - {n};
    }
  }

  /** Deleting any edges never slows the pipeline and never beats its slowest job. */
  lemma ThinningMonotone(g: Graph, h: Graph, timings: Timings, before: Path, after: Path, f: real)
    requires IsThinning(g, h) && IsFloor(timings, f)
    requires Solves(g, timings, before) && Solves(h, timings, after)
    ensures after.totalSeconds <= before.totalSeconds
    ensures timings.Keys <= g.Keys && NonNegative(timings) ==> f <= after.totalSeconds
    ensures timings.Keys <= g.Keys && NonNegative(timings) && (forall n, d :: !Needs(h, n, d)) ==>
              f == after.totalSeconds
  {
    SolutionIsHeaviest(g, timings, before);
    SolutionIsHeaviest(h, timings, after);
    hide Solves;
    ThinnedChain(g, h, after.path);
    if timings.Keys <= g.Keys && NonNegative(timings) {
      FloorBelowHeaviest(h, timings, after.path, after.totalSeconds, f);
      if forall n, d :: !Needs(h, n, d) {
        EdgelessMeetsFloor(h, timings, after.path, f);
      }
    }
  }

  lemma ThinnedChain(g: Graph, h: Graph, c: seq<Node>)
    requires IsThinning(g, h) && IsChain(h, c)
    ensures IsChain(g, c)
  {
    ThinningNeeds(g, h);
  }

  lemma FloorBelowHeaviest(g: Graph, timings: Timings, c: seq<Node>, w: real, f: real)
    requires IsHeaviest(g, timings, c, w) && IsFloor(timings, f) && timings.Keys <= g.Keys
    ensures f <= w
  {
    if timings == map[] {
      AllWeightless(timings, c);
    } else {
      var n :| n in timings && timings[n].TotalSeconds() == f;
      SingleIsChain(g, timings, n);
    }
  }

  lemma ChainLink(g: Graph, c: seq<Node>, i: nat)
    requires IsChain(g, c) && 0 < i < |c|
    ensures Needs(g, c[i], c[i - 1])
  {
  }

  lemma EdgelessChainIsSingle(g: Graph, c: seq<Node>)
    requires IsChain(g, c) && forall n, d :: !Needs(g, n, d)
    ensures |c| == 1
  {
    if |c| > 1 { ChainLink(g, c, 1); }
  }

  lemma EdgelessMeetsFloor(g: Graph, timings: Timings, c: seq<Node>, f: real)
    requires IsChain(g, c) && IsFloor(timings, f) && NonNegative(timings) && forall n, d :: !Needs(g, n, d)
    ensures ChainWeight(timings, c) <= f
  {
    EdgelessChainIsSingle(g, c);
    assert c == [c[0]];
    SingleIsChain(g, timings, c[0]);
    if timings != map[] { var n :| n in timings && timings[n].TotalSeconds() == f; }
  }

  lemma {:induction false} AllWeightless(timings: Timings, c: seq<Node>)
    requires timings == map[]
    ensures ChainWeight(timings, c) == 0.0
  {
    if c != [] { AllWeightless(timings, c[..|c| - 1]); }
  }

  // ---------------------------------------------------------------- one edge

  ghost predicate Crosses(c: seq<Node>, i: nat, u: Node, v: Node) {
    0 < i < |c| && c[i - 1] == u && c[i] == v
  }

  /** A chain that returns to a node closes a cycle. */
  lemma LoopIsCycle(g: Graph, c: seq<Node>, i: nat, k: nat) returns (w: seq<Node>)
    requires IsChain(g, c) && i < k < |c| && c[i] == c[k]
    ensures IsCycle(g, w)
  {
    w := seq(k - i, j requires 0 <= j < k - i => c[k - j]);
    forall j | 0 < j < |w| ensures Needs(g, w[j - 1], w[j]) {
      assert Needs(g, c[k - j + 1], c[k - j]);
    }
    assert Needs(g, c[i + 1], c[i]);
  }

  lemma ChainIsDistinct(g: Graph, c: seq<Node>, i: nat, k: nat)
    requires Acyclic(g) && IsChain(g, c) && i < k < |c|
    ensures c[i] != c[k]
  {
    if c[i] == c[k] {
      var w := LoopIsCycle(g, c, i, k);
    }
  }

  lemma {:induction false} ChainWeightConcat(timings: Timings, a: seq<Node>, b: seq<Node>)
    ensures ChainWeight(timings, a + b) == ChainWeight(timings, a) + ChainWeight(timings, b)
  {
    if b == [] {
      assert a + b == a;
    } else {
      var k := |b| - 1;
      ChainWeightConcat(timings, a, b[..k]);
      assert (a + b)[..|a| + k] == a + b[..k];
    }
  }

  lemma SpliceIsChain(g: Graph, a: seq<Node>, b: seq<Node>)
    requires IsChain(g, a) && IsChain(g, b) && Needs(g, b[0], a[|a| - 1])
    ensures IsChain(g, a + b)
  {
  }

  /** A slice of a chain avoids the edge when the chain crosses it only at the slice's boundary. */
  lemma SliceSurvives(g: Graph, u: Node, v: Node, c: seq<Node>, lo: nat, hi: nat)
    requires IsChain(g, c) && lo < hi <= |c| && forall k | lo < k < hi :: !Crosses(c, k, u, v)
    ensures IsChain(g, c[lo..hi]) && IsChain(WithoutEdge(g, u, v), c[lo..hi])
  {
    WithoutEdgeNeeds(g, u, v);
    var s := c[lo..hi];
    forall i | 0 < i < |s| ensures Needs(g, s[i], s[i - 1]) && !(s[i] == v && s[i - 1] == u) {
      assert Needs(g, c[lo + i], c[lo + i - 1]) && !Crosses(c, lo + i, u, v);
    }
  }

  lemma CrossesOnce(g: Graph, u: Node, v: Node, c: seq<Node>, i: nat)
    requires Acyclic(g) && IsChain(g, c) && Crosses(c, i, u, v)
    ensures forall k | 0 < k < |c| && k != i :: !Crosses(c, k, u, v)
  {
    forall k | 0 < k < |c| && k != i ensures !Crosses(c, k, u, v) {
      if k < i { ChainIsDistinct(g, c, k, i); } else { ChainIsDistinct(g, c, i, k); }
    }
  }

  /** The heaviest chain either avoids the edge, or falls into two halves that both survive its removal. */
  lemma HeaviestSplits(g: Graph, timings: Timings, u: Node, v: Node, c: seq<Node>)
    returns (front: seq<Node>, back: seq<Node>)
    requires Acyclic(g) && IsChain(g, c)
    ensures c == front + back && ChainWeight(timings, c) == ChainWeight(timings, front) + ChainWeight(timings, back)
    ensures IsChain(g, front) && IsChain(WithoutEdge(g, u, v), front)
    ensures back != [] ==> && IsChain(g, back) && IsChain(WithoutEdge(g, u, v), back)
                           && front[|front| - 1] == u && back[0] == v
  {
    if i: nat :| Crosses(c, i, u, v) {
      CrossesOnce(g, u, v, c, i);
      SliceSurvives(g, u, v, c, 0, i);
      SliceSurvives(g, u, v, c, i, |c|);
      front, back := c[0..i], c[i..|c|];
    } else {
      SliceSurvives(g, u, v, c, 0, |c|);
      front, back := c[0..|c|], [];
    }
    hide IsChain, Acyclic;
    ChainWeightConcat(timings, front, back);
    assert c == front + back;
  }

  /** Removing `v needs u` saves at most what ends at `u`, and at most what follows it: so at most half. */
  lemma EdgeRemovalBound(g: Graph, timings: Timings, u: Node, v: Node, c: seq<Node>, w: real, c': seq<Node>,
                         w': real, finishU: real)
    requires Acyclic(g) && Needs(g, v, u) && IsHeaviest(g, timings, c, w)
    requires IsHeaviest(WithoutEdge(g, u, v), timings, c', w')
    requires IsLongestTo(g, timings, u, finishU) && 0.0 <= finishU <= w
    ensures w - w' <= finishU <= w'
  {
    var front, back := HeaviestSplits(g, timings, u, v, c);
    if back != [] {
      var best :| IsChain(g, best) && best[|best| - 1] == u && ChainWeight(timings, best) == finishU;
      SpliceIsChain(g, best, back);
      ChainWeightConcat(timings, best, back);
    }
  }

  /** Removing something that is not an edge changes nothing. */
  lemma NoEdgeNoChange(g: Graph, timings: Timings, u: Node, v: Node, c: seq<Node>, w: real, c': seq<Node>, w': real)
    requires !Needs(g, v, u) && IsHeaviest(g, timings, c, w)
    requires IsHeaviest(WithoutEdge(g, u, v), timings, c', w')
    ensures w == w'
  {
    WithoutEdgeNeeds(g, u, v);
    assert IsChain(g, c') && IsChain(WithoutEdge(g, u, v), c);
  }

  lemma NeverSlower(g: Graph, timings: Timings, u: Node, v: Node, c: seq<Node>, w: real, c': seq<Node>, w': real)
    requires IsHeaviest(g, timings, c, w) && IsHeaviest(WithoutEdge(g, u, v), timings, c', w')
    ensures w' <= w
  {
    WithoutEdgeNeeds(g, u, v);
    ThinnedChain(g, WithoutEdge(g, u, v), c');
  }

  ghost predicate SavingIsBounded(g: Graph, u: Node, v: Node, before: Path, after: Path) {
    var saving := before.totalSeconds - after.totalSeconds;
    && 0.0 <= saving && 2.0 * saving <= before.totalSeconds
    && (Needs(g, v, u) ==> u in before.nodeFinish && saving <= before.nodeFinish[u]
                           && saving <= before.totalSeconds - before.nodeFinish[u])
    && (!Needs(g, v, u) ==> saving == 0.0)
  }

  method ReplayWithoutEdge(g: Graph, timings: Timings, fromNode: Node, toNode: Node)
    returns (before: Option<Path>, after: Option<Path>)
    ensures Describes(g, timings, before)
    ensures Describes(WithoutEdge(g, fromNode, toNode), timings, after)
    ensures before.Some? ==> after.Some?
    ensures before.Some? && NonNegative(timings) ==>
              SavingIsBounded(g, fromNode, toNode, before.value, after.value)
  {
    before := ComputeCriticalPath(g, timings);
    after := ComputeCriticalPath(WithoutEdge(g, fromNode, toNode), timings);
    if before.Some? {
      WithoutEdgeNeeds(g, fromNode, toNode);
      ThinningStaysSortable(g, WithoutEdge(g, fromNode, toNode));
      if NonNegative(timings) { ReplayBound(g, timings, fromNode, toNode, before.value, after.value); }
    }
  }

  lemma ReplayBound(g: Graph, timings: Timings, u: Node, v: Node, before: Path, after: Path)
    requires Acyclic(g) && NonNegative(timings)
    requires Solves(g, timings, before) && Solves(WithoutEdge(g, u, v), timings, after)
    ensures SavingIsBounded(g, u, v, before, after)
  {
    TotalNonNegative(g, timings, before);
    if Needs(g, v, u) { FinishNonNegative(g, timings, before, u); SolutionFinish(g, timings, before, u); }
    SolutionIsHeaviest(g, timings, before);
    SolutionIsHeaviest(WithoutEdge(g, u, v), timings, after);
    hide *;
    NeverSlower(g, timings, u, v, before.path, before.totalSeconds, after.path, after.totalSeconds);
    if Needs(g, v, u) {
      EdgeRemovalBound(g, timings, u, v, before.path, before.totalSeconds, after.path, after.totalSeconds,
                       before.nodeFinish[u]);
    } else {
      NoEdgeNoChange(g, timings, u, v, before.path, before.totalSeconds, after.path, after.totalSeconds);
    }
    BoundsSaving(g, u, v, before, after);
  }

  lemma BoundsSaving(g: Graph, u: Node, v: Node, before: Path, after: Path)
    requires 0.0 <= before.totalSeconds && after.totalSeconds <= before.totalSeconds
    requires if Needs(g, v, u) then
               u in before.nodeFinish && before.totalSeconds - after.totalSeconds <= before.nodeFinish[u]
               && before.nodeFinish[u] <= after.totalSeconds
             else before.totalSeconds == after.totalSeconds
    ensures SavingIsBounded(g, u, v, before, after)
  {
  }

  lemma TotalNonNegative(g: Graph, timings: Timings, cp: Path)
    requires NonNegative(timings) && Solves(g, timings, cp)
    ensures 0.0 <= cp.totalSeconds
  {
    FinishNonNegative(g, timings, cp, cp.path[0]);
  }

  lemma FinishNonNegative(g: Graph, timings: Timings, cp: Path, n: Node)
    requires NonNegative(timings) && Solves(g, timings, cp) && n in g
    ensures n in cp.nodeFinish && 0.0 <= cp.nodeFinish[n] <= cp.totalSeconds
  {
    SolutionFinish(g, timings, cp, n);
    SingleIsChain(g, timings, n);
  }
}
