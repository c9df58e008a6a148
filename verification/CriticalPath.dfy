/** Longest weighted path over observed timings (src/cadence/dag.py:82-133). Durations are reals. */
module CriticalPath {
  import opened Common
  import opened Dag

  datatype NodeTiming = NodeTiming(key: Node, queueSeconds: real, execSeconds: real, legCount: nat,
                                   queueUnknown: bool)
  {
    function TotalSeconds(): real { queueSeconds + execSeconds }
  }

  type Timings = map<Node, NodeTiming>

  datatype Path = Path(totalSeconds: real, path: seq<Node>, nodeFinish: map<Node, real>)

  /** Untimed nodes are zero-cost pass-throughs. */
  function Weight(timings: Timings, n: Node): real {
    if n in timings then timings[n].TotalSeconds() else 0.0
  }

  /** What the clamps of `aggregate_spans` establish (see `Spans.SpansAreNonNegative`). */
  ghost predicate NonNegative(timings: Timings) {
    forall n | n in timings :: timings[n].TotalSeconds() >= 0.0
  }

  // ---------------------------------------------------------------- chains, the reference notion

  /** Jobs that wait for one another in this order: each entry needs the one before it. */
  ghost predicate IsChain(g: Graph, c: seq<Node>) {
    && |c| > 0
    && (forall i | 0 <= i < |c| :: c[i] in g)
    && (forall i | 0 < i < |c| :: Needs(g, c[i], c[i - 1]))
  }

  ghost function ChainWeight(timings: Timings, c: seq<Node>): real {
    if c == [] then 0.0 else ChainWeight(timings, c[..|c| - 1]) + Weight(timings, c[|c| - 1])
  }

  /** `w` is the greatest weight of a chain ending at `n`. */
  ghost predicate IsLongestTo(g: Graph, timings: Timings, n: Node, w: real) {
    && (exists c :: IsChain(g, c) && c[|c| - 1] == n && ChainWeight(timings, c) == w)
    && (forall c | IsChain(g, c) && c[|c| - 1] == n :: ChainWeight(timings, c) <= w)
  }

  // ---------------------------------------------------------------- what critical_path promises

  /** Python's `max(xs, key=score.get)`: the first of the entries with the greatest score. */
  ghost predicate IsFirstMax(xs: seq<Node>, score: map<Node, real>, x: Node) {
    && (forall y | y in xs :: y in score)
    && exists i :: 0 <= i < |xs| && xs[i] == x
         && (forall j | 0 <= j < i :: score[xs[j]] < score[x])
         && (forall j | i <= j < |xs| :: score[xs[j]] <= score[x])
  }

  function Among(deps: seq<Node>, keys: set<Node>): seq<Node> {
    if deps == [] then [] else (if deps[0] in keys then [deps[0]] else []) + Among(deps[1..], keys)
  }

  ghost function InGraphDeps(g: Graph, n: Node): seq<Node>
    requires n in g
  {
    Among(g[n], g.Keys)
  }

  /** The path is a real chain of weight `total`; its ties are broken by list order, then by sort order. */
  ghost predicate IsWitness(g: Graph, timings: Timings, cp: Path) {
    && cp.nodeFinish.Keys == g.Keys
    && IsChain(g, cp.path)
    && ChainWeight(timings, cp.path) == cp.totalSeconds == cp.nodeFinish[cp.path[|cp.path| - 1]]
    && (forall n | n in g :: cp.nodeFinish[n] <= cp.totalSeconds)
    && (forall i | 0 < i < |cp.path| ::
          IsFirstMax(InGraphDeps(g, cp.path[i]), cp.nodeFinish, cp.path[i - 1]))
    && InGraphDeps(g, cp.path[0]) == []
    && (forall o | IsLeastTopologicalOrder(g, o) :: IsFirstMax(o, cp.nodeFinish, cp.path[|cp.path| - 1]))
  }

  ghost predicate IsOptimal(g: Graph, timings: Timings, cp: Path) {
    && (forall n | n in g :: n in cp.nodeFinish && IsLongestTo(g, timings, n, cp.nodeFinish[n]))
    && (forall c | IsChain(g, c) :: ChainWeight(timings, c) <= cp.totalSeconds)
  }

  ghost predicate Describes(g: Graph, timings: Timings, result: Option<Path>) {
    && (result.Some? <==> Sortable(g) && g != map[])
    && (result.Some? ==> IsWitness(g, timings, result.value))
    && (result.Some? && NonNegative(timings) ==> IsOptimal(g, timings, result.value))
  }

  // ---------------------------------------------------------------- the equations the loop solves

  /** `n` starts when its slowest in-graph dependency, `pred`, finishes. */
  ghost predicate Settled(g: Graph, timings: Timings, finish: map<Node, real>, n: Node, pred: Option<Node>) {
    && n in g && n in finish
    && (forall d | Needs(g, n, d) :: d in finish)
    && match pred
       case None => InGraphDeps(g, n) == [] && finish[n] == Weight(timings, n)
       case Some(p) => p in finish && IsFirstMax(InGraphDeps(g, n), finish, p)
                       && finish[n] == finish[p] + Weight(timings, n)
  }

  ghost predicate AllSettled(g: Graph, timings: Timings, finish: map<Node, real>,
                             predecessor: map<Node, Option<Node>>) {
    && finish.Keys == predecessor.Keys
    && (forall n | n in finish :: Settled(g, timings, finish, n, predecessor[n]))
    && (NonNegative(timings) ==> forall n | n in finish :: finish[n] >= Weight(timings, n) >= 0.0)
  }

  lemma {:induction false} AmongMembers(deps: seq<Node>, keys: set<Node>)
    ensures forall d :: d in Among(deps, keys) <==> d in deps && d in keys
  {
    if deps != [] {
      AmongMembers(deps[1..], keys);
      assert deps == [deps[0]] + deps[1..];
    }
  }

  lemma {:induction false} AmongAgrees(deps: seq<Node>, keys: set<Node>, keys': set<Node>)
    requires forall d | d in deps :: d in keys <==> d in keys'
    ensures Among(deps, keys) == Among(deps, keys')
  {
    if deps != [] {
      AmongAgrees(deps[1..], keys, keys');
    }
  }

  lemma SettledBound(g: Graph, timings: Timings, finish: map<Node, real>, n: Node, pred: Option<Node>)
    requires Settled(g, timings, finish, n, pred)
    ensures forall d | Needs(g, n, d) :: finish[d] + Weight(timings, n) <= finish[n]
    ensures match pred
            case None => finish[n] == Weight(timings, n) && InGraphDeps(g, n) == []
            case Some(p) => Needs(g, n, p) && p in finish && IsFirstMax(InGraphDeps(g, n), finish, p)
                            && finish[n] == finish[p] + Weight(timings, n)
  {
    AmongMembers(g[n], g.Keys);
  }

  /** Finish times pay for every wait: all a bound on chains needs to know. */
  ghost predicate Dominates(g: Graph, timings: Timings, finish: map<Node, real>) {
    && finish.Keys == g.Keys
    && (forall n | n in g :: Weight(timings, n) <= finish[n])
    && (forall n, d | Needs(g, n, d) :: finish[d] + Weight(timings, n) <= finish[n])
  }

  lemma SettledDominates(g: Graph, timings: Timings, finish: map<Node, real>,
                         predecessor: map<Node, Option<Node>>)
    requires AllSettled(g, timings, finish, predecessor) && finish.Keys == g.Keys && NonNegative(timings)
    ensures Dominates(g, timings, finish)
  {
    forall n, d | Needs(g, n, d) ensures finish[d] + Weight(timings, n) <= finish[n] {
      SettledBound(g, timings, finish, n, predecessor[n]);
    }
  }

  /** No chain outweighs the finish time of the node it ends at. */
  lemma {:induction false} ChainBound(g: Graph, timings: Timings, finish: map<Node, real>, c: seq<Node>)
    requires Dominates(g, timings, finish) && IsChain(g, c)
    ensures ChainWeight(timings, c) <= finish[c[|c| - 1]]
  {
    var k := |c| - 1;
    if k > 0 {
      assert Needs(g, c[k], c[k - 1]);
      ChainBound(g, timings, finish, c[..k]);
    } else {
      assert c[..0] == [];
    }
  }

  lemma {:induction false} ChainWeightPrepend(timings: Timings, n: Node, c: seq<Node>)
    ensures ChainWeight(timings, [n] + c) == Weight(timings, n) + ChainWeight(timings, c)
  {
    if c == [] {
      assert [n] + c == [n] && [n][..0] == [];
    } else {
      var k := |c| - 1;
      ChainWeightPrepend(timings, n, c[..k]);
      assert ([n] + c)[..k + 1] == [n] + c[..k];
    }
  }

  lemma FirstMaxExtends(xs: seq<Node>, finish: map<Node, real>, x: Node, n: Node, w: real)
    requires IsFirstMax(xs, finish, x) && n !in finish
    ensures IsFirstMax(xs, finish[n := w], x)
  {
    var i :| 0 <= i < |xs| && xs[i] == x && (forall j | 0 <= j < i :: finish[xs[j]] < finish[x])
             && (forall j | i <= j < |xs| :: finish[xs[j]] <= finish[x]);
    var f := finish[n := w];
    assert forall y | y in xs :: f[y] == finish[y];
    assert (forall j | 0 <= j < i :: f[xs[j]] < f[x]) && (forall j | i <= j < |xs| :: f[xs[j]] <= f[x]);
  }

  lemma SettledExtends(g: Graph, timings: Timings, finish: map<Node, real>, m: Node, pred: Option<Node>,
                       n: Node, w: real)
    requires Settled(g, timings, finish, m, pred) && n !in finish
    ensures Settled(g, timings, finish[n := w], m, pred)
  {
    if pred.Some? {
      FirstMaxExtends(InGraphDeps(g, m), finish, pred.value, n, w);
    }
  }

  // ---------------------------------------------------------------- the computation

  method FirstMax(xs: seq<Node>, score: map<Node, real>) returns (x: Node)
    requires |xs| > 0 && forall y | y in xs :: y in score
    ensures IsFirstMax(xs, score, x)
  {
    x := xs[0];
    ghost var at := 0;
    for k := 1 to |xs|
      invariant 0 <= at < k && xs[at] == x && x in score
      invariant forall j | 0 <= j < at :: score[xs[j]] < score[x]
      invariant forall j | at <= j < k :: score[xs[j]] <= score[x]
    {
      assert xs[k] in xs;
      if score[xs[k]] > score[x] {
        x, at := xs[k], k;
      }
    }
  }

  function Reversed(s: seq<Node>): (r: seq<Node>)
    ensures |r| == |s|
  {
    if s == [] then [] else [s[|s| - 1]] + Reversed(s[..|s| - 1])
  }

  lemma SettleNext(g: Graph, timings: Timings, finish: map<Node, real>, predecessor: map<Node, Option<Node>>,
                   node: Node, pred: Option<Node>, w: real)
    requires AllSettled(g, timings, finish, predecessor)
    requires node in g && node !in finish && forall d | Needs(g, node, d) :: d in finish
    requires match pred
             case None => InGraphDeps(g, node) == [] && w == Weight(timings, node)
             case Some(p) => p in finish && IsFirstMax(InGraphDeps(g, node), finish, p)
                             && w == finish[p] + Weight(timings, node)
    ensures AllSettled(g, timings, finish[node := w], predecessor[node := pred])
  {
    hide IsFirstMax, Settled, NonNegative, Weight;
    SettleNode(g, timings, finish, node, pred, w);
    OthersStaySettled(g, timings, finish, predecessor, node, w);
    if NonNegative(timings) { WeightNonNegative(timings, node); }
  }

  lemma OthersStaySettled(g: Graph, timings: Timings, finish: map<Node, real>,
                          predecessor: map<Node, Option<Node>>, node: Node, w: real)
    requires finish.Keys == predecessor.Keys && node !in finish
    requires forall m | m in finish :: Settled(g, timings, finish, m, predecessor[m])
    ensures forall m | m in finish :: Settled(g, timings, finish[node := w], m, predecessor[m])
  {
    forall m | m in finish ensures Settled(g, timings, finish[node := w], m, predecessor[m]) {
      SettledExtends(g, timings, finish, m, predecessor[m], node, w);
    }
  }

  lemma SettleNode(g: Graph, timings: Timings, finish: map<Node, real>, node: Node, pred: Option<Node>, w: real)
    requires node in g && node !in finish && forall d | Needs(g, node, d) :: d in finish
    requires match pred
             case None => InGraphDeps(g, node) == [] && w == Weight(timings, node)
             case Some(p) => p in finish && IsFirstMax(InGraphDeps(g, node), finish, p)
                             && w == finish[p] + Weight(timings, node)
    ensures Settled(g, timings, finish[node := w], node, pred)
  {
    if pred.Some? { FirstMaxExtends(InGraphDeps(g, node), finish, pred.value, node, w); }
    hide IsFirstMax;
  }

  lemma WeightNonNegative(timings: Timings, n: Node)
    requires NonNegative(timings)
    ensures Weight(timings, n) >= 0.0
  {
  }

  /** The finish times and blocking predecessors of every node (dag.py:95-109). */
  method FinishTimes(g: Graph, timings: Timings, order: seq<Node>)
    returns (finish: map<Node, real>, predecessor: map<Node, Option<Node>>)
    requires IsTopologicalOrder(g, order)
    ensures AllSettled(g, timings, finish, predecessor) && finish.Keys == g.Keys
  {
    hide Settled, IsFirstMax, NonNegative, IsTopologicalOrder;
    finish, predecessor := map[], map[];
    for i := 0 to |order|
      invariant AllSettled(g, timings, finish, predecessor)
      invariant forall n :: n in finish <==> n in order[..i]
    {
      var node := order[i];
      FreshInOrder(g, order, i);
      var deps := Among(g[node], finish.Keys);
      AmongAgrees(g[node], finish.Keys, g.Keys);
      AmongMembers(g[node], finish.Keys);
      var start, pred := 0.0, None;
      if deps != [] {
        var blocking := FirstMax(deps, finish);
        FirstMaxIsMember(deps, finish, blocking);
        start, pred := finish[blocking], Some(blocking);
      }
      var w := start + Weight(timings, node);
      SettleNext(g, timings, finish, predecessor, node, pred, w);
      finish := finish[node := w];
      predecessor := predecessor[node := pred];
      assert order[..i + 1] == order[..i] + [node];
    }
    assert order[..|order|] == order;
    TopologicalCovers(g, order);
  }

  lemma FirstMaxIsMember(xs: seq<Node>, score: map<Node, real>, x: Node)
    requires IsFirstMax(xs, score, x)
    ensures x in xs && x in score
  {
  }

  /** The links of a path walked back from its end; `cursor` is what the next step would visit. */
  ghost predicate Linked(g: Graph, finish: map<Node, real>, chain: seq<Node>, cursor: Option<Node>) {
    && (forall i | 0 <= i < |chain| :: chain[i] in g)
    && (forall i | 0 < i < |chain| :: IsFirstMax(InGraphDeps(g, chain[i]), finish, chain[i - 1]))
    && (chain != [] && cursor.Some? ==> IsFirstMax(InGraphDeps(g, chain[0]), finish, cursor.value))
    && (chain != [] && cursor.None? ==> InGraphDeps(g, chain[0]) == [])
  }

  lemma LinkOne(g: Graph, timings: Timings, finish: map<Node, real>, chain: seq<Node>, node: Node,
                next: Option<Node>)
    requires Linked(g, finish, chain, Some(node)) && node in g
    requires match next
             case None => InGraphDeps(g, node) == []
             case Some(p) => IsFirstMax(InGraphDeps(g, node), finish, p)
    ensures Linked(g, finish, [node] + chain, next)
    ensures ChainWeight(timings, [node] + chain) == Weight(timings, node) + ChainWeight(timings, chain)
  {
    hide IsFirstMax;
    ChainWeightPrepend(timings, node, chain);
  }

  /** The predecessor walk and the reversal (dag.py:115-120); it ends because positions in `order` fall. */
  method WalkBack(g: Graph, timings: Timings, finish: map<Node, real>, predecessor: map<Node, Option<Node>>,
                  ghost order: seq<Node>, end: Node)
    returns (path: seq<Node>)
    requires IsTopologicalOrder(g, order) && AllSettled(g, timings, finish, predecessor)
    requires finish.Keys == g.Keys && end in g
    ensures |path| > 0 && path[|path| - 1] == end && Linked(g, finish, path, None)
    ensures ChainWeight(timings, path) == finish[end]
  {
    hide IsFirstMax, Settled, IsTopologicalOrder, NonNegative;
    var back: seq<Node> := [];
    var cursor := Some(end);
    ghost var at := PositionOf(g, order, end);
    ghost var chain: seq<Node> := [];
    while cursor.Some?
      invariant chain == Reversed(back) && Linked(g, finish, chain, cursor)
      invariant if chain == [] then cursor == Some(end) else chain[|chain| - 1] == end
      invariant cursor.Some? ==> cursor.value in g && 0 <= at < |order| && order[at] == cursor.value
      invariant ChainWeight(timings, chain) + (if cursor.Some? then finish[cursor.value] else 0.0) == finish[end]
      decreases if cursor.Some? then at + 1 else 0
    {
      var node := cursor.value;
      SettledBound(g, timings, finish, node, predecessor[node]);
      FreshInOrder(g, order, at);
      LinkOne(g, timings, finish, chain, node, predecessor[node]);
      chain := [node] + chain;
      assert (back + [node])[..|back|] == back;
      back := back + [node];
      cursor := predecessor[node];
      if cursor.Some? {
        ghost var j :| 0 <= j < at && order[j] == cursor.value;
        at := j;
      }
    }
    path := Reversed(back);
  }

  lemma LinkedIsChain(g: Graph, finish: map<Node, real>, path: seq<Node>)
    requires |path| > 0 && Linked(g, finish, path, None)
    ensures IsChain(g, path)
  {
    forall i | 0 < i < |path| ensures Needs(g, path[i], path[i - 1]) {
      AmongMembers(g[path[i]], g.Keys);
      FirstMaxIsMember(InGraphDeps(g, path[i]), finish, path[i - 1]);
    }
  }

  method ComputeCriticalPath(g: Graph, timings: Timings) returns (result: Option<Path>)
    ensures Describes(g, timings, result)
  {
    var sorted := Toposort(g);
    if sorted.None? {
      return None;
    }
    var order := sorted.value;
    var finish, predecessor := FinishTimes(g, timings, order);
    if finish == map[] {
      assert g.Keys == {};
      return None;
    }
    TopologicalCovers(g, order);
    assert order != [];
    var end := FirstMax(order, finish);
    FirstMaxIsMember(order, finish, end);
    var path := WalkBack(g, timings, finish, predecessor, order, end);
    var cp := Path(finish[end], path, finish);
    PathIsWitness(g, timings, cp, order);
    if NonNegative(timings) { PathIsOptimal(g, timings, cp, order, predecessor); }
    result := Some(cp);
  }

  lemma PathIsWitness(g: Graph, timings: Timings, cp: Path, order: seq<Node>)
    requires IsLeastTopologicalOrder(g, order) && cp.nodeFinish.Keys == g.Keys
    requires |cp.path| > 0 && Linked(g, cp.nodeFinish, cp.path, None)
    requires IsFirstMax(order, cp.nodeFinish, cp.path[|cp.path| - 1])
    requires ChainWeight(timings, cp.path) == cp.totalSeconds == cp.nodeFinish[cp.path[|cp.path| - 1]]
    ensures IsWitness(g, timings, cp)
  {
    LinkedIsChain(g, cp.nodeFinish, cp.path);
    forall n | n in g ensures cp.nodeFinish[n] <= cp.totalSeconds {
      var i := PositionOf(g, order, n);
    }
    forall o | IsLeastTopologicalOrder(g, o) ensures IsFirstMax(o, cp.nodeFinish, cp.path[|cp.path| - 1]) {
      LeastTopologicalOrderIsUnique(g, o, order);
    }
  }

  lemma PathIsOptimal(g: Graph, timings: Timings, cp: Path, order: seq<Node>,
                      predecessor: map<Node, Option<Node>>)
    requires IsTopologicalOrder(g, order) && NonNegative(timings) && IsWitness(g, timings, cp)
    requires AllSettled(g, timings, cp.nodeFinish, predecessor)
    ensures IsOptimal(g, timings, cp)
  {
    var finish := cp.nodeFinish;
    SettledDominates(g, timings, finish, predecessor);
    forall c | IsChain(g, c) ensures ChainWeight(timings, c) <= finish[c[|c| - 1]] <= cp.totalSeconds {
      ChainBound(g, timings, finish, c);
    }
    forall n | n in g ensures IsLongestTo(g, timings, n, finish[n]) {
      var c := WalkToFinish(g, timings, finish, predecessor, order, n);
    }
  }

  lemma SingleIsChain(g: Graph, timings: Timings, n: Node)
    requires n in g
    ensures IsChain(g, [n]) && ChainWeight(timings, [n]) == Weight(timings, n)
  {
    assert [n][..0] == [];
  }

  lemma ChainAppend(g: Graph, timings: Timings, c: seq<Node>, n: Node)
    requires IsChain(g, c) && Needs(g, n, c[|c| - 1])
    ensures IsChain(g, c + [n]) && |c + [n]| > 0 && (c + [n])[|c|] == n
    ensures ChainWeight(timings, c + [n]) == ChainWeight(timings, c) + Weight(timings, n)
  {
    assert (c + [n])[..|c|] == c;
  }

  /** Every finish time is attained, by the chain the predecessor walk from that node yields. */
  lemma WalkToFinish(g: Graph, timings: Timings, finish: map<Node, real>, predecessor: map<Node, Option<Node>>,
                     order: seq<Node>, n: Node)
    returns (c: seq<Node>)
    requires IsTopologicalOrder(g, order) && AllSettled(g, timings, finish, predecessor)
    requires finish.Keys == g.Keys && n in g
    ensures IsChain(g, c) && c[|c| - 1] == n && ChainWeight(timings, c) == finish[n]
  {
    var i := PositionOf(g, order, n);
    c := WalkFrom(g, timings, finish, predecessor, order, i);
  }

  lemma WalkFrom(g: Graph, timings: Timings, finish: map<Node, real>, predecessor: map<Node, Option<Node>>,
                 order: seq<Node>, i: nat)
    returns (c: seq<Node>)
    requires IsTopologicalOrder(g, order) && AllSettled(g, timings, finish, predecessor)
    requires finish.Keys == g.Keys && i < |order| && order[i] in g
    ensures IsChain(g, c) && c[|c| - 1] == order[i] && ChainWeight(timings, c) == finish[order[i]]
    decreases i
  {
    var n := order[i];
    SettledBound(g, timings, finish, n, predecessor[n]);
    FreshInOrder(g, order, i);
    hide IsFirstMax, Settled, IsTopologicalOrder, NonNegative, IsChain, ChainWeight;
    match predecessor[n] {
      case None =>
        SingleIsChain(g, timings, n);
        c := [n];
      case Some(p) =>
        assert Needs(g, n, p);
        var j :| 0 <= j < i && order[j] == p;
        var front := WalkFrom(g, timings, finish, predecessor, order, j);
        ChainAppend(g, timings, front, n);
        c := front + [n];
    }
  }
}
