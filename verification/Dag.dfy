/** The `needs:` graph and Kahn's sort over it (src/cadence/dag.py). */
module Dag {
  import opened Common

  type Node = string

  /** Each node with the dependencies it lists, in file order. A dependency that is not a key is dangling. */
  type Graph = map<Node, seq<Node>>

  predicate Needs(g: Graph, node: Node, dep: Node) {
    node in g && dep in g && dep in g[node]
  }

  // ---------------------------------------------------------------- what a sortable graph is

  ghost predicate IsWalk(g: Graph, w: seq<Node>) {
    && (forall i | 0 <= i < |w| :: w[i] in g)
    && (forall i | 0 < i < |w| :: Needs(g, w[i - 1], w[i]))
  }

  ghost predicate IsCycle(g: Graph, c: seq<Node>) {
    |c| > 0 && IsWalk(g, c) && Needs(g, c[|c| - 1], c[0])
  }

  ghost predicate Acyclic(g: Graph) {
    forall c: seq<Node> :: !IsCycle(g, c)
  }

  /** No node lists the same in-graph dependency twice. */
  ghost predicate NoRepeatedDep(g: Graph) {
    forall n, d | n in g && d in g :: multiset(g[n])[d] <= 1
  }

  ghost predicate Sortable(g: Graph) {
    Acyclic(g) && NoRepeatedDep(g)
  }

  // ---------------------------------------------------------------- topological orders

  ghost predicate IsTopologicalOrder(g: Graph, o: seq<Node>) {
    && multiset(o) == multiset(g.Keys)
    && forall i, d | 0 <= i < |o| && Needs(g, o[i], d) :: d in o[..i]
  }

  /** `a` comes no later than `b` when both are compared entry by entry. */
  ghost predicate LexAtMost(a: seq<Node>, b: seq<Node>) {
    a == b || exists i :: 0 <= i < |a| && i < |b| && a[..i] == b[..i] && Less(a[i], b[i])
  }

  ghost predicate IsLeastTopologicalOrder(g: Graph, o: seq<Node>) {
    && IsTopologicalOrder(g, o)
    && forall p | IsTopologicalOrder(g, p) :: LexAtMost(o, p)
  }

  /** So the sort's answer cannot depend on the order in which dictionaries are walked. */
  lemma LeastTopologicalOrderIsUnique(g: Graph, a: seq<Node>, b: seq<Node>)
    requires IsLeastTopologicalOrder(g, a) && IsLeastTopologicalOrder(g, b)
    ensures a == b
  {
    if a != b {
      var i :| 0 <= i < |a| && i < |b| && a[..i] == b[..i] && Less(a[i], b[i]);
      var j :| 0 <= j < |b| && j < |a| && b[..j] == a[..j] && Less(b[j], a[j]);
      LessIrreflexive(a[i]);
      LessIrreflexive(a[j]);
      if i == j { LessTransitive(a[i], b[i], a[i]); }
    }
  }

  // ---------------------------------------------------------------- Kahn's rule, one pop at a time

  /** Entries of `n`'s list that still name `d` after popping `done`: each pop removes one occurrence. */
  ghost function Left(g: Graph, done: seq<Node>, n: Node, d: Node): nat
    requires n in g
  {
    var listed := multiset(g[n])[d];
    if d in done && listed > 0 then listed - 1 else listed
  }

  /** Popping `done` has used up every in-graph entry of `n`'s list. */
  ghost predicate Ready(g: Graph, done: seq<Node>, n: Node) {
    n in g && n !in done && forall d | d in g :: Left(g, done, n, d) == 0
  }

  lemma ReadyInGraph(g: Graph, done: seq<Node>)
    ensures forall n | Ready(g, done, n) :: n in g
  {
  }

  ghost predicate IsLeastReady(g: Graph, done: seq<Node>, n: Node) {
    Ready(g, done, n) && forall m | Ready(g, done, m) :: m == n || Less(n, m)
  }

  ghost predicate Greedy(g: Graph, done: seq<Node>) {
    forall i | 0 <= i < |done| :: IsLeastReady(g, done[..i], done[i])
  }

  lemma GreedyIsDistinct(g: Graph, done: seq<Node>)
    requires Greedy(g, done)
    ensures forall n :: multiset(done)[n] <= 1
    ensures forall n | n in done :: n in g
    ensures |done| <= |g|
    ensures |done| == |g| ==> multiset(done) == multiset(g.Keys)
    ensures |done| < |g| ==> exists n :: n in g && n !in done
  {
    forall i, j | 0 <= i < j < |done| ensures done[i] != done[j] {
      assert IsLeastReady(g, done[..j], done[j]);
      assert done[..j][i] == done[i];
    }
    forall n | n in done ensures n in g {
      var i :| 0 <= i < |done| && done[i] == n;
      assert IsLeastReady(g, done[..i], done[i]);
    }
    DistinctCount(done);
    DistinctWithin(done, g.Keys);
  }

  lemma {:induction false} DistinctCount(s: seq<Node>)
    requires forall i, j | 0 <= i < j < |s| :: s[i] != s[j]
    ensures forall n :: multiset(s)[n] <= 1
  {
    if s != [] {
      var k := |s| - 1;
      DistinctCount(s[..k]);
      assert s == s[..k] + [s[k]];
      assert s[k] !in s[..k];
    }
  }

  lemma {:induction false} DistinctWithin(s: seq<Node>, keys: set<Node>)
    requires forall i, j | 0 <= i < j < |s| :: s[i] != s[j]
    requires forall n | n in s :: n in keys
    ensures |s| <= |keys|
    ensures |s| == |keys| ==> multiset(s) == multiset(keys)
    ensures |s| < |keys| ==> exists n :: n in keys && n !in s
  {
    if s != [] {
      var k := |s| - 1;
      assert forall i | 0 <= i < k :: s[i] != s[k];
      DistinctWithin(s[..k], keys - {s[k]});
      assert s == s[..k] + [s[k]];
      assert keys == (keys - {s[k]}) + {s[k]};
    } else if keys != {} {
      var n :| n in keys;
      assert n !in s;
    }
  }

  lemma GreedyIsTopological(g: Graph, o: seq<Node>)
    requires Greedy(g, o) && |o| == |g|
    ensures IsTopologicalOrder(g, o) && NoRepeatedDep(g)
  {
    GreedyIsDistinct(g, o);
    forall i, d | 0 <= i < |o| && Needs(g, o[i], d) ensures d in o[..i] {
      assert IsLeastReady(g, o[..i], o[i]);
      assert Left(g, o[..i], o[i], d) == 0;
    }
    forall n, d | n in g && d in g ensures multiset(g[n])[d] <= 1 {
      assert n in multiset(g.Keys);
      assert n in o;
      var i :| 0 <= i < |o| && o[i] == n;
      assert IsLeastReady(g, o[..i], o[i]);
      assert Left(g, o[..i], n, d) == 0;
    }
  }

  /** The greedy order beats every topological order at the first place they differ. */
  lemma GreedyIsLeast(g: Graph, o: seq<Node>, p: seq<Node>)
    requires Greedy(g, o) && |o| == |g| && IsTopologicalOrder(g, p)
    ensures LexAtMost(o, p)
  {
    GreedyIsTopological(g, o);
    assert |p| == |multiset(p)| == |multiset(o)| == |o|;
    if o != p {
      var i := FirstDifference(o, p);
      PrefixMakesReady(g, p, i);
      assert IsLeastReady(g, o[..i], o[i]);
      assert o[..i] == p[..i] && Less(o[i], p[i]);
    }
  }

  lemma FirstDifference(a: seq<Node>, b: seq<Node>) returns (i: nat)
    requires |a| == |b| && a != b
    ensures i < |a| && a[..i] == b[..i] && a[i] != b[i]
  {
    i := 0;
    while i < |a| && a[i] == b[i]
      invariant i <= |a| && a[..i] == b[..i]
    {
      i := i + 1;
    }
    assert a[..|a|] == a && b[..|b|] == b;
  }

  lemma PrefixMakesReady(g: Graph, p: seq<Node>, i: nat)
    requires NoRepeatedDep(g) && IsTopologicalOrder(g, p) && i < |p|
    ensures Ready(g, p[..i], p[i])
  {
    assert p == p[..i] + [p[i]] + p[i + 1..];
    assert multiset(p)[p[i]] == 1;
    forall d | d in g ensures Left(g, p[..i], p[i], d) == 0 {
      assert d in g[p[i]] ==> Needs(g, p[i], d);
    }
  }

  // ---------------------------------------------------------------- cycles

  /** Along a walk, positions in a topological order only go down, so no walk closes. */
  lemma {:induction false} WalkDescends(g: Graph, o: seq<Node>, w: seq<Node>, i: nat)
    requires IsTopologicalOrder(g, o) && IsWalk(g, w) && i < |o| && |w| > 0 && w[0] == o[i]
    ensures w[|w| - 1] in o[..i + 1]
  {
    if |w| > 1 {
      assert Needs(g, w[0], w[1]);
      var j :| 0 <= j < i && o[j] == w[1];
      assert forall k | 0 < k < |w[1..]| :: w[1..][k - 1] == w[k] && Needs(g, w[k], w[k + 1]);
      WalkDescends(g, o, w[1..], j);
      assert w[1..][|w| - 2] == w[|w| - 1];
      assert o[..j + 1] <= o[..i + 1];
    }
  }

  lemma TopologicalIsDistinct(g: Graph, o: seq<Node>, i: nat, j: nat)
    requires IsTopologicalOrder(g, o) && i < j < |o|
    ensures o[i] != o[j]
  {
    assert o == o[..j] + o[j..];
    assert o[i] in o[..j] && o[j] in o[j..];
    assert multiset(o)[o[j]] <= 1;
  }

  lemma TopologicalIsAcyclic(g: Graph, o: seq<Node>)
    requires IsTopologicalOrder(g, o)
    ensures Acyclic(g)
  {
    forall c: seq<Node> ensures !IsCycle(g, c) { NotACycle(g, o, c); }
  }

  lemma TopologicalCovers(g: Graph, order: seq<Node>)
    requires IsTopologicalOrder(g, order)
    ensures forall n :: n in order <==> n in g
  {
    assert forall n :: n in order <==> n in multiset(order);
    assert forall n :: n in multiset(g.Keys) <==> n in g;
  }

  lemma FreshInOrder(g: Graph, order: seq<Node>, i: nat)
    requires IsTopologicalOrder(g, order) && i < |order|
    ensures order[i] in g && order[i] !in order[..i]
    ensures forall d | Needs(g, order[i], d) :: d in order[..i]
    ensures forall n | n in order[..i] :: n in g
  {
    TopologicalCovers(g, order);
    forall j | 0 <= j < i ensures order[j] != order[i] { TopologicalIsDistinct(g, order, j, i); }
  }

  lemma PositionOf(g: Graph, order: seq<Node>, n: Node) returns (i: nat)
    requires IsTopologicalOrder(g, order) && n in g
    ensures i < |order| && order[i] == n
  {
    TopologicalCovers(g, order);
    i :| 0 <= i < |order| && order[i] == n;
  }

  lemma NotACycle(g: Graph, o: seq<Node>, c: seq<Node>)
    requires IsTopologicalOrder(g, o)
    ensures !IsCycle(g, c)
  {
    if IsCycle(g, c) {
      var i := PositionOf(g, o, c[0]);
      WalkDescends(g, o, c, i);
      var j :| 0 <= j < i + 1 && o[j] == c[|c| - 1];
      FreshInOrder(g, o, i);
    }
  }

  ghost predicate NeedsWithin(g: Graph, s: set<Node>, n: Node) {
    exists d :: d in s && Needs(g, n, d)
  }

  /** A non-empty set in which every node needs another member contains a cycle (pigeonhole on a walk). */
  lemma ClosedSetHasCycle(g: Graph, s: set<Node>, w: seq<Node>) returns (c: seq<Node>)
    requires forall n {:trigger NeedsWithin(g, s, n)} | n in s :: NeedsWithin(g, s, n)
    requires |w| > 0 && IsWalk(g, w) && (forall n | n in w :: n in s)
    requires (forall i, j | 0 <= i < j < |w| :: w[i] != w[j]) && |w| <= |s|
    ensures IsCycle(g, c)
    decreases |s| - |w|
  {
    var last := w[|w| - 1];
    assert last in w && last in s;
    assert NeedsWithin(g, s, last);
    var d :| d in s && Needs(g, last, d);
    if d in w {
      var i :| 0 <= i < |w| && w[i] == d;
      c := w[i..];
      WalkTail(g, w, i);
    } else {
      var w' := w + [d];
      assert forall n | n in w' :: n in w || n == d;
      DistinctWithin(w', s);
      c := ClosedSetHasCycle(g, s, w');
    }
  }

  lemma ClosedSetIsCyclic(g: Graph, s: set<Node>)
    requires s != {} && forall n {:trigger NeedsWithin(g, s, n)} | n in s :: NeedsWithin(g, s, n)
    ensures !Acyclic(g)
  {
    var n :| n in s;
    assert NeedsWithin(g, s, n);
    DistinctWithin([n], s);
    var c := ClosedSetHasCycle(g, s, [n]);
  }

  lemma WalkTail(g: Graph, w: seq<Node>, i: nat)
    requires IsWalk(g, w) && i < |w|
    ensures IsWalk(g, w[i..])
  {
    forall k | 0 < k < |w[i..]| ensures Needs(g, w[i..][k - 1], w[i..][k]) {
      assert Needs(g, w[i + k - 1], w[i + k]);
    }
  }

  /** When no node is ready but some are left over, the graph is not sortable. */
  lemma StuckIsUnsortable(g: Graph, done: seq<Node>)
    requires Greedy(g, done) && |done| < |g|
    requires forall n :: !Ready(g, done, n)
    ensures !Sortable(g)
  {
    GreedyIsDistinct(g, done);
    hide Ready, Greedy, NeedsWithin, NoRepeatedDep, Acyclic;
    if NoRepeatedDep(g) {
      var s := set n | n in g && n !in done;
      forall n | n in s ensures NeedsWithin(g, s, n) { BlockedNeeds(g, done, s, n); }
      var n :| n in g && n !in done;
      assert n in s;
      ClosedSetIsCyclic(g, s);
    }
  }

  lemma BlockedNeeds(g: Graph, done: seq<Node>, s: set<Node>, n: Node)
    requires NoRepeatedDep(g) && s == (set m | m in g && m !in done) && n in s && !Ready(g, done, n)
    ensures NeedsWithin(g, s, n)
  {
    var d :| d in g && Left(g, done, n, d) != 0;
    assert Needs(g, n, d);
  }

  /** The repeated dependency that keeps an acyclic graph from being sorted. */
  lemma RepeatedDependencyBlocksSorting()
    ensures var g: Graph := map["a" := [], "b" := ["a", "a"]]; Acyclic(g) && !NoRepeatedDep(g) && !Sortable(g)
  {
    var g: Graph := map["a" := [], "b" := ["a", "a"]];
    assert "a" in g && "b" in g && multiset(g["b"])["a"] == 2;
    assert !NoRepeatedDep(g);
    forall c: seq<Node> ensures !IsCycle(g, c) {
      if IsCycle(g, c) { var d, e := CycleEnds(g, c); }
    }
  }

  /** The first node of a cycle needs something and is needed. */
  lemma CycleEnds(g: Graph, c: seq<Node>) returns (dep: Node, user: Node)
    requires IsCycle(g, c)
    ensures Needs(g, c[0], dep) && Needs(g, user, c[0])
  {
    dep, user := if |c| > 1 then c[1] else c[0], c[|c| - 1];
  }

  // ---------------------------------------------------------------- the sort itself

  /** How many entries of a list are graph nodes: the `indegree` of dag.py:58-62. */
  function InGraph(deps: seq<Node>, keys: set<Node>): nat {
    if deps == [] then 0 else (if deps[0] in keys then 1 else 0) + InGraph(deps[1..], keys)
  }

  /** `list.remove`: drops the first occurrence only. */
  function RemoveFirst(deps: seq<Node>, n: Node): (r: seq<Node>)
    requires n in deps
    ensures forall d :: multiset(r)[d] == multiset(deps)[d] - if d == n then 1 else 0
    ensures forall keys: set<Node> | n in keys :: InGraph(deps, keys) == InGraph(r, keys) + 1
  {
    assert deps == [deps[0]] + deps[1..];
    if deps[0] == n then deps[1..] else [deps[0]] + RemoveFirst(deps[1..], n)
  }

  lemma {:induction false} InGraphZero(deps: seq<Node>, keys: set<Node>)
    ensures InGraph(deps, keys) == 0 <==> forall d | d in keys :: multiset(deps)[d] == 0
  {
    if deps != [] {
      assert deps == [deps[0]] + deps[1..];
      InGraphZero(deps[1..], keys);
    }
  }

  /** A node's list and counter agree with Kahn's rule after popping `done`. */
  ghost predicate Tracks(g: Graph, done: seq<Node>, n: Node, deps: seq<Node>, count: int) {
    && n in g
    && (forall d :: multiset(deps)[d] == Left(g, done, n, d))
    && count == InGraph(deps, g.Keys)
  }

  ghost predicate AllTrack(g: Graph, done: seq<Node>, remaining: Graph, indegree: map<Node, int>) {
    && remaining.Keys == indegree.Keys == g.Keys
    && forall n | n in g :: Tracks(g, done, n, remaining[n], indegree[n])
  }

  ghost predicate QueueIsReady(g: Graph, done: seq<Node>, queue: seq<Node>) {
    forall n :: multiset(queue)[n] == if Ready(g, done, n) then 1 else 0
  }

  lemma ReadyIsZero(g: Graph, done: seq<Node>, n: Node, deps: seq<Node>, count: int)
    requires Tracks(g, done, n, deps, count)
    ensures Ready(g, done, n) <==> n !in done && count == 0
  {
    InGraphZero(deps, g.Keys);
  }

  lemma DoneHasNoneLeft(g: Graph, done: seq<Node>, n: Node)
    requires Greedy(g, done) && n in done
    ensures n in g && forall d | d in g :: Left(g, done, n, d) == 0
  {
    var i :| 0 <= i < |done| && done[i] == n;
    assert IsLeastReady(g, done[..i], n);
    forall d | d in g ensures Left(g, done, n, d) == 0 {
      assert Left(g, done[..i], n, d) == 0;
    }
  }

  /** One node's share of a pop (dag.py:72-76); `freed` says it joins the queue. */
  method ReleaseNode(g: Graph, ghost done: seq<Node>, node: Node, other: Node, deps: seq<Node>, count: int)
    returns (deps': seq<Node>, count': int, freed: bool)
    requires Greedy(g, done) && IsLeastReady(g, done, node) && Tracks(g, done, other, deps, count)
    ensures Tracks(g, done + [node], other, deps', count')
    ensures Ready(g, done + [node], other) <==> other != node && (Ready(g, done, other) || freed)
    ensures freed ==> other != node && !Ready(g, done, other)
  {
    ReadyIsZero(g, done, other, deps, count);
    if other in done { DoneHasNoneLeft(g, done, other); InGraphZero(deps, g.Keys); }
    deps', count', freed := deps, count, false;
    if node in deps {
      InGraphZero(deps, g.Keys);
      deps' := RemoveFirst(deps, node);
      count' := count - 1;
      freed := count' == 0;
    }
    assert forall d :: multiset(deps')[d] == Left(g, done + [node], other, d) by {
      assert multiset(deps)[node] == Left(g, done, other, node);
    }
    ReadyIsZero(g, done + [node], other, deps', count');
  }

  /** Part-way through a pop: `todo` nodes still reflect `done`, the others already reflect the popped node. */
  ghost predicate Midway(g: Graph, done: seq<Node>, node: Node, todo: set<Node>, remaining: Graph,
                         indegree: map<Node, int>, queue: seq<Node>)
  {
    && remaining.Keys == indegree.Keys == g.Keys && todo <= g.Keys
    && (forall n | n in todo :: Tracks(g, done, n, remaining[n], indegree[n]))
    && (forall n | n in g && n !in todo :: Tracks(g, done + [node], n, remaining[n], indegree[n]))
    && (forall n :: multiset(queue)[n] ==
          if n in todo then (if n != node && Ready(g, done, n) then 1 else 0)
          else if Ready(g, done + [node], n) then 1 else 0)
  }

  lemma MidwayStart(g: Graph, done: seq<Node>, node: Node, remaining: Graph, indegree: map<Node, int>,
                    queue: seq<Node>)
    requires AllTrack(g, done, remaining, indegree) && QueueIsReady(g, done, [node] + queue)
    requires Ready(g, done, node)
    ensures Midway(g, done, node, g.Keys, remaining, indegree, queue)
  {
    assert forall n :: multiset([node] + queue)[n] == multiset(queue)[n] + if n == node then 1 else 0;
    ReadyInGraph(g, done);
    ReadyInGraph(g, done + [node]);
    hide Tracks, Ready;
  }

  lemma MidwayStep(g: Graph, done: seq<Node>, node: Node, todo: set<Node>, remaining: Graph,
                   indegree: map<Node, int>, queue: seq<Node>, other: Node, deps: seq<Node>, count: int, freed: bool)
    requires Midway(g, done, node, todo, remaining, indegree, queue) && other in todo
    requires Tracks(g, done + [node], other, deps, count)
    requires Ready(g, done + [node], other) <==> other != node && (Ready(g, done, other) || freed)
    requires freed ==> other != node && !Ready(g, done, other)
    ensures Midway(g, done, node, todo - {other}, remaining[other := deps], indegree[other := count],
                   if freed then queue + [other] else queue)
  {
    hide Tracks, Ready;
  }

  lemma MidwayEnd(g: Graph, done: seq<Node>, node: Node, remaining: Graph, indegree: map<Node, int>,
                  queue: seq<Node>)
    requires Midway(g, done, node, {}, remaining, indegree, queue)
    ensures AllTrack(g, done + [node], remaining, indegree) && QueueIsReady(g, done + [node], queue)
  {
    hide Tracks, Ready;
  }

  /** The inner loop of one pop (dag.py:71-76), over the nodes in whatever order the dictionary yields them. */
  method Release(g: Graph, ghost done: seq<Node>, node: Node, remaining0: Graph, indegree0: map<Node, int>,
                 queue0: seq<Node>)
    returns (remaining: Graph, indegree: map<Node, int>, queue: seq<Node>)
    requires AllTrack(g, done, remaining0, indegree0) && Greedy(g, done) && IsLeastReady(g, done, node)
    requires QueueIsReady(g, done, [node] + queue0)
    ensures AllTrack(g, done + [node], remaining, indegree)
    ensures QueueIsReady(g, done + [node], queue)
  {
    remaining, indegree, queue := remaining0, indegree0, queue0;
    MidwayStart(g, done, node, remaining, indegree, queue);
    hide Ready, Tracks, AllTrack, QueueIsReady, Greedy, IsLeastReady;
    var todo := g.Keys;
    while todo != {}
      invariant Midway(g, done, node, todo, remaining, indegree, queue)
    {
      var other :| other in todo;
      var deps, count, freed := ReleaseNode(g, done, node, other, remaining[other], indegree[other]);
      MidwayStep(g, done, node, todo, remaining, indegree, queue, other, deps, count, freed);
      hide Midway;
      remaining := remaining[other := deps];
      indegree := indegree[other := count];
      if freed {
        queue := queue + [other];
      }
      todo := todo - {other};
    }
    MidwayEnd(g, done, node, remaining, indegree, queue);
  }

  /** The initial queue (dag.py:64): the nodes nothing in the graph holds back, sorted. */
  method Sources(g: Graph, indegree: map<Node, int>) returns (queue: seq<Node>)
    requires AllTrack(g, [], g, indegree)
    ensures Ascending(queue) && QueueIsReady(g, [], queue)
  {
    queue := [];
    var todo := g.Keys;
    while todo != {}
      invariant todo <= g.Keys
      invariant forall n :: multiset(queue)[n] == if n !in todo && Ready(g, [], n) then 1 else 0
    {
      var n :| n in todo;
      ReadyIsZero(g, [], n, g[n], indegree[n]);
      if indegree[n] == 0 {
        queue := queue + [n];
      }
      todo := todo - {n};
    }
    queue := Sorted(queue);
  }

  lemma HeadIsLeast(g: Graph, done: seq<Node>, queue: seq<Node>)
    requires |queue| > 0 && Ascending(queue) && QueueIsReady(g, done, queue)
    ensures IsLeastReady(g, done, queue[0])
  {
    assert queue[0] in multiset(queue);
    forall m | Ready(g, done, m) ensures m == queue[0] || Less(queue[0], m) {
      assert m in multiset(queue);
    }
  }

  lemma GreedyGrows(g: Graph, done: seq<Node>, n: Node)
    requires Greedy(g, done) && IsLeastReady(g, done, n)
    ensures Greedy(g, done + [n])
  {
    var o := done + [n];
    forall i | 0 <= i < |o| ensures IsLeastReady(g, o[..i], o[i]) {
      assert o[..i] == done[..i];
      assert done[..|done|] == done;
    }
  }

  method Toposort(g: Graph) returns (order: Option<seq<Node>>)
    ensures order.Some? <==> Sortable(g)
    ensures order.Some? ==> IsLeastTopologicalOrder(g, order.value)
  {
    var indegree: map<Node, int> := map n | n in g :: InGraph(g[n], g.Keys);
    var remaining := g;
    var done: seq<Node> := [];
    var queue := Sources(g, indegree);
    while queue != []
      invariant Greedy(g, done) && AllTrack(g, done, remaining, indegree)
      invariant QueueIsReady(g, done, queue) && Ascending(queue)
      decreases |g| - |done|
    {
      var node := queue[0];
      assert queue == [node] + queue[1..];
      HeadIsLeast(g, done, queue);
      remaining, indegree, queue := Release(g, done, node, remaining, indegree, queue[1..]);
      queue := Sorted(queue);
      GreedyGrows(g, done, node);
      done := done + [node];
      GreedyIsDistinct(g, done);
    }
    order := Conclude(g, done);
  }

  /** The final length test (dag.py:79). */
  method Conclude(g: Graph, done: seq<Node>) returns (order: Option<seq<Node>>)
    requires Greedy(g, done) && QueueIsReady(g, done, [])
    ensures order.Some? <==> Sortable(g)
    ensures order.Some? ==> IsLeastTopologicalOrder(g, order.value)
  {
    assert forall n :: !Ready(g, done, n) by {
      forall n ensures !Ready(g, done, n) { assert multiset([])[n] == 0; }
    }
    GreedyIsDistinct(g, done);
    if |done| == |g| {
      GreedyIsTopological(g, done);
      TopologicalIsAcyclic(g, done);
      forall p | IsTopologicalOrder(g, p) ensures LexAtMost(done, p) { GreedyIsLeast(g, done, p); }
      order := Some(done);
    } else {
      StuckIsUnsortable(g, done);
      order := None;
    }
  }
}
