/** The bounded breadth-first resolver, and why it knows enough (src/cadence/actions.py:99-134). */
module Actions {
  import opened Common
  import opened CacheState

  const MAX_LOOKUPS: nat := 30
  const MAX_DEPTH: nat := 3

  /** The provider: which references name an action file, and what that file says (None when it is missing). */
  datatype World = World(parses: string -> bool, fetch: string -> Option<Manifest>)

  /** What the resolver will look up: a readable reference whose behaviour is not modelled already. */
  predicate Wanted(world: World, uses: string) {
    uses != "" && world.parses(uses) && !IsKnown(ActionOf(uses))
  }

  /** Everything an index records is what the provider says. */
  ghost predicate Truthful(world: World, index: Index) {
    forall u | u in index :: Wanted(world, u) && index[u] == world.fetch(u)
  }

  function Children(m: Option<Manifest>): seq<string> {
    if m.Some? && m.value.composite then UsesOf(m.value.steps) else []
  }

  function UsesOf(steps: seq<Step>): seq<string> {
    if steps == [] then [] else (if steps[0].uses != "" then [steps[0].uses] else []) + UsesOf(steps[1..])
  }

  function At(uses: seq<string>, depth: nat): seq<(string, nat)> {
    seq(|uses|, i requires 0 <= i < |uses| => (uses[i], depth))
  }

  // ---------------------------------------------------------------- breadth first, so first is shallowest

  /** `u` needs no more work at depth `d`: not wanted, failed once, read at that depth or above, or queued as shallow. */
  ghost predicate Handled(world: World, failed: set<string>, queue: seq<(string, nat)>, depthOf: map<string, nat>, u: string, d: nat) {
    || !Wanted(world, u) || u in failed
    || (u in depthOf && depthOf[u] <= d)
    || exists i :: 0 <= i < |queue| && queue[i].0 == u && queue[i].1 <= d
  }

  ghost predicate ChildrenHandled(world: World, failed: set<string>, queue: seq<(string, nat)>, depthOf: map<string, nat>, u: string)
    requires u in depthOf
  {
    depthOf[u] + 1 < MAX_DEPTH ==>
      forall c | c in Children(world.fetch(u)) :: Handled(world, failed, queue, depthOf, c, depthOf[u] + 1)
  }

  /** Depths in the queue never decrease and span at most one level; what was read is no deeper than what waits. */
  ghost predicate Layered(queue: seq<(string, nat)>, depthOf: map<string, nat>, level: nat) {
    && (forall i | 0 <= i < |queue| :: level <= queue[i].1 <= level + 1)
    && (forall i, j | 0 <= i < j < |queue| :: queue[i].1 <= queue[j].1)
    && (forall u | u in depthOf :: depthOf[u] <= level)
  }

  ghost predicate Progress(world: World, failed: set<string>, uses: seq<string>, queue: seq<(string, nat)>, depthOf: map<string, nat>) {
    && (forall u | u in uses :: Handled(world, failed, queue, depthOf, u, 0))
    && (forall u | u in depthOf :: ChildrenHandled(world, failed, queue, depthOf, u))
  }

  lemma HandledAfterSkip(world: World, failed: set<string>, queue: seq<(string, nat)>, depthOf: map<string, nat>, u: string, d: nat)
    requires queue != [] && Handled(world, failed, queue, depthOf, u, d)
    requires !Wanted(world, queue[0].0) || (queue[0].0 in depthOf && depthOf[queue[0].0] <= queue[0].1)
    ensures Handled(world, failed, queue[1..], depthOf, u, d)
  {
    if Wanted(world, u) && u !in failed && !(u in depthOf && depthOf[u] <= d) {
      var i :| 0 <= i < |queue| && queue[i].0 == u && queue[i].1 <= d;
      assert queue[1..][i - 1] == queue[i];
    }
  }

  /** A lookup that fails settles its subject, as a failure. */
  lemma HandledAfterFail(world: World, failed: set<string>, queue: seq<(string, nat)>, depthOf: map<string, nat>, u: string, d: nat)
    requires queue != [] && Handled(world, failed, queue, depthOf, u, d)
    ensures Handled(world, failed + {queue[0].0}, queue[1..], depthOf, u, d)
  {
    if Wanted(world, u) && u !in failed + {queue[0].0} && !(u in depthOf && depthOf[u] <= d) {
      var i :| 0 <= i < |queue| && queue[i].0 == u && queue[i].1 <= d;
      assert queue[1..][i - 1] == queue[i];
    }
  }

  lemma FailKeepsProgress(world: World, failed: set<string>, uses: seq<string>, queue: seq<(string, nat)>,
                          depthOf: map<string, nat>)
    requires queue != [] && Progress(world, failed, uses, queue, depthOf)
    ensures Progress(world, failed + {queue[0].0}, uses, queue[1..], depthOf)
  {
    var more := failed + {queue[0].0};
    forall u | u in uses ensures Handled(world, more, queue[1..], depthOf, u, 0) {
      HandledAfterFail(world, failed, queue, depthOf, u, 0);
    }
    forall u | u in depthOf ensures ChildrenHandled(world, more, queue[1..], depthOf, u) {
      if depthOf[u] + 1 < MAX_DEPTH {
        forall c | c in Children(world.fetch(u)) ensures Handled(world, more, queue[1..], depthOf, c, depthOf[u] + 1) {
          HandledAfterFail(world, failed, queue, depthOf, c, depthOf[u] + 1);
        }
      }
    }
  }

  lemma HandledAfterRead(world: World, failed: set<string>, queue: seq<(string, nat)>, depthOf: map<string, nat>, more: seq<(string, nat)>,
                         u: string, d: nat)
    requires queue != [] && Handled(world, failed, queue, depthOf, u, d) && queue[0].0 !in depthOf
    ensures Handled(world, failed, queue[1..] + more, depthOf[queue[0].0 := queue[0].1], u, d)
  {
    if Wanted(world, u) && u !in failed && !(u in depthOf && depthOf[u] <= d) {
      var i :| 0 <= i < |queue| && queue[i].0 == u && queue[i].1 <= d;
      if i > 0 { assert (queue[1..] + more)[i - 1] == queue[i]; }
    }
  }

  lemma SkipKeepsProgress(world: World, failed: set<string>, uses: seq<string>, queue: seq<(string, nat)>, depthOf: map<string, nat>)
    requires queue != [] && Progress(world, failed, uses, queue, depthOf)
    requires !Wanted(world, queue[0].0) || (queue[0].0 in depthOf && depthOf[queue[0].0] <= queue[0].1)
    ensures Progress(world, failed, uses, queue[1..], depthOf)
  {
    forall u | u in uses ensures Handled(world, failed, queue[1..], depthOf, u, 0) {
      HandledAfterSkip(world, failed, queue, depthOf, u, 0);
    }
    forall u | u in depthOf ensures ChildrenHandled(world, failed, queue[1..], depthOf, u) {
      if depthOf[u] + 1 < MAX_DEPTH {
        forall c | c in Children(world.fetch(u)) ensures Handled(world, failed, queue[1..], depthOf, c, depthOf[u] + 1) {
          HandledAfterSkip(world, failed, queue, depthOf, c, depthOf[u] + 1);
        }
      }
    }
  }

  function Expansion(world: World, use: string, depth: nat): seq<(string, nat)> {
    if depth + 1 < MAX_DEPTH then At(Children(world.fetch(use)), depth + 1) else []
  }

  lemma ReadKeepsProgress(world: World, failed: set<string>, uses: seq<string>, queue: seq<(string, nat)>, depthOf: map<string, nat>)
    requires queue != [] && Progress(world, failed, uses, queue, depthOf) && queue[0].0 !in depthOf
    ensures Progress(world, failed, uses, queue[1..] + Expansion(world, queue[0].0, queue[0].1),
                     depthOf[queue[0].0 := queue[0].1])
  {
    var (use, depth) := queue[0];
    var more := Expansion(world, use, depth);
    var after, read := queue[1..] + more, depthOf[use := depth];
    forall u | u in uses ensures Handled(world, failed, after, read, u, 0) {
      HandledAfterRead(world, failed, queue, depthOf, more, u, 0);
    }
    forall u | u in read ensures ChildrenHandled(world, failed, after, read, u) {
      if u == use {
        NewChildrenHandled(world, failed, queue[1..], read, use, depth);
      } else if depthOf[u] + 1 < MAX_DEPTH {
        forall c | c in Children(world.fetch(u)) ensures Handled(world, failed, after, read, c, depthOf[u] + 1) {
          HandledAfterRead(world, failed, queue, depthOf, more, c, depthOf[u] + 1);
        }
      }
    }
  }

  lemma NewChildrenHandled(world: World, failed: set<string>, rest: seq<(string, nat)>, read: map<string, nat>, use: string, depth: nat)
    requires use in read && read[use] == depth
    ensures ChildrenHandled(world, failed, rest + Expansion(world, use, depth), read, use)
  {
    if depth + 1 < MAX_DEPTH {
      var children, more := Children(world.fetch(use)), Expansion(world, use, depth);
      forall c | c in children ensures Handled(world, failed, rest + more, read, c, depth + 1) {
        var k :| 0 <= k < |children| && children[k] == c;
        assert (rest + more)[|rest| + k] == (c, depth + 1);
      }
    }
  }

  lemma LayersAdvance(world: World, queue: seq<(string, nat)>, depthOf: map<string, nat>, level: nat)
    requires queue != [] && Layered(queue, depthOf, level)
    ensures Layered(queue[1..] + Expansion(world, queue[0].0, queue[0].1), depthOf[queue[0].0 := queue[0].1],
                    queue[0].1)
  {
    var more := Expansion(world, queue[0].0, queue[0].1);
    forall i | 0 <= i < |more| ensures more[i].1 == queue[0].1 + 1 {}
  }

  /** `dict.fromkeys`: duplicates dropped, first occurrence kept. */
  function FirstSeen(uses: seq<string>): seq<string> {
    if uses == [] then []
    else
      var front := FirstSeen(uses[..|uses| - 1]);
      if uses[|uses| - 1] in front then front else front + [uses[|uses| - 1]]
  }

  lemma {:induction false} FirstSeenMembers(uses: seq<string>)
    ensures forall u :: u in FirstSeen(uses) <==> u in uses
    decreases |uses|
  {
    if uses != [] {
      FirstSeenMembers(uses[..|uses| - 1]);
      assert uses == uses[..|uses| - 1] + [uses[|uses| - 1]];
    }
  }

  lemma QueuedIsHandled(world: World, failed: set<string>, uses: seq<string>, u: string)
    requires u in uses
    ensures Handled(world, failed, At(uses, 0), map[], u, 0)
  {
    var i :| 0 <= i < |uses| && uses[i] == u;
    assert At(uses, 0)[i] == (u, 0);
  }

  // ---------------------------------------------------------------- knowing enough

  /** Everything a walk entering `u` at depth `d` can ask for has been read, as far as no lookup of it failed. */
  ghost predicate Covers(world: World, failed: set<string>, index: Index, u: string, d: nat)
    decreases if d < MAX_DEPTH then MAX_DEPTH - d else 0
  {
    Wanted(world, u) && u !in failed ==>
      && u in index
      && (d + 1 < MAX_DEPTH ==> forall c | c in Children(world.fetch(u)) :: Covers(world, failed, index, c, d + 1))
  }

  ghost predicate KnowsEnough(world: World, failed: set<string>, index: Index, uses: seq<string>) {
    forall u | u in uses :: Covers(world, failed, index, u, 0)
  }

  lemma {:induction false} DrainedCovers(world: World, failed: set<string>, index: Index, depthOf: map<string, nat>, u: string, d: nat)
    requires depthOf.Keys == index.Keys && forall v | v in depthOf :: ChildrenHandled(world, failed, [], depthOf, v)
    requires Handled(world, failed, [], depthOf, u, d)
    ensures Covers(world, failed, index, u, d)
    decreases if d < MAX_DEPTH then MAX_DEPTH - d else 0
  {
    if Wanted(world, u) && u !in failed && d + 1 < MAX_DEPTH {
      assert ChildrenHandled(world, failed, [], depthOf, u);
      forall c | c in Children(world.fetch(u)) ensures Covers(world, failed, index, c, d + 1) {
        assert Handled(world, failed, [], depthOf, c, depthOf[u] + 1);
        assert Handled(world, failed, [], depthOf, c, d + 1);
        DrainedCovers(world, failed, index, depthOf, c, d + 1);
      }
    }
  }

  lemma DrainedKnowsEnough(world: World, failed: set<string>, index: Index, uses: seq<string>, depthOf: map<string, nat>)
    requires depthOf.Keys == index.Keys && Progress(world, failed, uses, [], depthOf)
    ensures KnowsEnough(world, failed, index, uses)
  {
    forall u | u in uses ensures Covers(world, failed, index, u, 0) { DrainedCovers(world, failed, index, depthOf, u, 0); }
  }

  lemma {:induction false} UsesOfMembers(steps: seq<Step>)
    ensures forall k | 0 <= k < |steps| && steps[k].uses != "" :: steps[k].uses in UsesOf(steps)
    decreases |steps|
  {
    if steps != [] {
      UsesOfMembers(steps[1..]);
      forall k | 0 < k < |steps| && steps[k].uses != "" ensures steps[k].uses in UsesOf(steps) {
        assert steps[1..][k - 1] == steps[k];
      }
    }
  }

  ghost predicate StepsCovered(world: World, index: Index, steps: seq<Step>, depth: nat) {
    forall k | 0 <= k < |steps| && steps[k].uses != "" :: Covers(world, {}, index, steps[k].uses, depth)
  }

  lemma InnerCovered(world: World, index: Index, uses: string, depth: nat)
    requires Covers(world, {}, index, uses, depth) && Wanted(world, uses) && depth + 1 < MAX_DEPTH
    requires world.fetch(uses).Some? && world.fetch(uses).value.composite
    ensures StepsCovered(world, index, world.fetch(uses).value.steps, depth + 1)
  {
    var steps := world.fetch(uses).value.steps;
    UsesOfMembers(steps);
    forall k | 0 <= k < |steps| && steps[k].uses != "" ensures Covers(world, {}, index, steps[k].uses, depth + 1) {
      assert steps[k].uses in Children(world.fetch(uses));
    }
  }

  lemma {:induction false} StepKnown(env: Env, world: World, index: Index, big: Index, step: Step,
                                     checkout: Option<Step>, depth: nat)
    requires Truthful(world, index) && Truthful(world, big) && Extends(index, big)
    requires step.uses != "" ==> Covers(world, {}, index, step.uses, depth)
    ensures StepVerdict(env, index, step, checkout, depth) == StepVerdict(env, big, step, checkout, depth)
    decreases if depth < 2 then 2 - depth else 0, 0
  {
    hide IsKnown, IsSetupAction, IsCacheEquivalent, SetupCacheState, SetupNodeCaches, ExplicitlyDisabled, Given, ActionOf;
    if !IsKnown(ActionOf(step.uses)) && depth < 2 {
      var inner := ManifestSteps(index, step.uses);
      assert inner == ManifestSteps(big, step.uses);
      if inner.Some? {
        if inner.value != [] { InnerCovered(world, index, step.uses, depth); }
        WalkKnown(env, world, index, big, inner.value, checkout, depth + 1, false, false);
      }
    }
  }

  /** Reading more than the drained resolver read cannot change any verdict ahead of the install. */
  lemma {:induction false} WalkKnown(env: Env, world: World, index: Index, big: Index, steps: seq<Step>,
                                     checkout: Option<Step>, depth: nat, unknown: bool, disabled: bool)
    requires Truthful(world, index) && Truthful(world, big) && Extends(index, big)
    requires StepsCovered(world, index, steps, depth)
    ensures Walk(env, index, steps, checkout, depth, unknown, disabled) ==
            Walk(env, big, steps, checkout, depth, unknown, disabled)
    decreases if depth < 2 then 2 - depth else 0, |steps| + 1
  {
    if steps != [] {
      StepKnown(env, world, index, big, steps[0], checkout, depth);
      TailCovered(world, index, steps, depth);
      var v := StepVerdict(env, index, steps[0], checkout, depth);
      hide StepVerdict, NextCheckout, Truthful, Extends, StepsCovered;
      WalkKnown(env, world, index, big, steps[1..], NextCheckout(steps[0], checkout), depth,
                unknown || v == Unknown, disabled || v == Disabled);
    }
  }

  lemma TailCovered(world: World, index: Index, steps: seq<Step>, depth: nat)
    requires steps != [] && StepsCovered(world, index, steps, depth)
    ensures StepsCovered(world, index, steps[1..], depth)
  {
    hide Covers;
    assert forall k | 0 <= k < |steps[1..]| :: steps[1..][k] == steps[k + 1];
  }

  /** Resolve, then analyse: the bounded index gives the verdict any fuller truthful index would give. */
  lemma ResolverKnowsEnough(env: Env, world: World, index: Index, big: Index, steps: seq<Step>, uses: seq<string>)
    requires Truthful(world, index) && KnowsEnough(world, {}, index, uses)
    requires Truthful(world, big) && Extends(index, big)
    requires forall k | 0 <= k < |steps| && Wanted(world, steps[k].uses) :: steps[k].uses in uses
    ensures Walk(env, index, steps, None, 0, false, false) == Walk(env, big, steps, None, 0, false, false)
  {
    forall k | 0 <= k < |steps| && steps[k].uses != "" ensures Covers(world, {}, index, steps[k].uses, 0) {
      assert Wanted(world, steps[k].uses) ==> steps[k].uses in uses;
    }
    WalkKnown(env, world, index, big, steps, None, 0, false, false);
  }

  // ---------------------------------------------------------------- the resolver

  /** `asked[n]` is what lookup number `n` was about. */
  ghost function Failed(asked: seq<string>, fails: nat -> bool): set<string> {
    set n: nat | n < |asked| && fails(n) :: asked[n]
  }

  ghost function FailureCount(fails: nat -> bool, n: nat): nat {
    if n == 0 then 0 else FailureCount(fails, n - 1) + if fails(n - 1) then 1 else 0
  }

  lemma FailedGrows(asked: seq<string>, fails: nat -> bool, use: string)
    ensures Failed(asked + [use], fails) ==
              if fails(|asked|) then Failed(asked, fails) + {use} else Failed(asked, fails)
  {
    var more := asked + [use];
    forall u ensures u in Failed(more, fails) <==> u in Failed(asked, fails) || (fails(|asked|) && u == use) {
      if n: nat :| n < |more| && fails(n) && more[n] == u { assert n < |asked| ==> asked[n] == u; }
      if n: nat :| n < |asked| && fails(n) && asked[n] == u { assert more[n] == u; }
      assert more[|asked|] == use;
    }
  }

  lemma NothingFailed(asked: seq<string>, fails: nat -> bool)
    requires forall n: nat | n < |asked| :: !fails(n)
    ensures Failed(asked, fails) == {}
  {
  }

  /** `u` is used directly, or by a composite that is nested one level less. */
  ghost predicate Nested(world: World, uses: seq<string>, u: string, d: nat)
    decreases d
  {
    if d == 0 then u in uses
    else exists p :: Nested(world, uses, p, d - 1) && u in Children(world.fetch(p))
  }

  /** Not nested deeper than the analysis reads. */
  ghost predicate WithinReach(world: World, uses: seq<string>, u: string) {
    Nested(world, uses, u, 0) || Nested(world, uses, u, 1) || Nested(world, uses, u, 2)
  }

  ghost predicate QueueNested(world: World, uses: seq<string>, queue: seq<(string, nat)>) {
    forall i | 0 <= i < |queue| :: queue[i].1 <= 2 && Nested(world, uses, queue[i].0, queue[i].1)
  }

  /** Every lookup was worth making, and what did not fail is in the index. */
  ghost predicate Accounts(world: World, fails: nat -> bool, uses: seq<string>, asked: seq<string>, index: Index) {
    && (forall n: nat | n < |asked| ::
          && asked[n] != "" && world.parses(asked[n]) && !IsNamed(ActionOf(asked[n]))
          && WithinReach(world, uses, asked[n]) && (!fails(n) ==> asked[n] in index))
    && (forall u | u in index :: index[u] == world.fetch(u) && exists n: nat :: n < |asked| && !fails(n) && asked[n] == u)
    && |index| + FailureCount(fails, |asked|) == |asked|
  }

  lemma AccountsGrows(world: World, fails: nat -> bool, uses: seq<string>, asked: seq<string>, index: Index, use: string)
    requires Accounts(world, fails, uses, asked, index) && use !in index
    requires Wanted(world, use) && WithinReach(world, uses, use)
    ensures Accounts(world, fails, uses, asked + [use], if fails(|asked|) then index else index[use := world.fetch(use)])
  {
    KnownAreNamed(ActionOf(use));
    hide IsNamed, IsKnown, WithinReach, ActionOf;
    var more := asked + [use];
    var next := if fails(|asked|) then index else index[use := world.fetch(use)];
    forall u | u in next ensures exists n: nat :: n < |more| && !fails(n) && more[n] == u {
      if u in index {
        var n: nat :| n < |asked| && !fails(n) && asked[n] == u;
        assert more[n] == u;
      } else {
        assert more[|asked|] == u;
      }
    }
  }

  lemma ChildrenNested(world: World, uses: seq<string>, queue: seq<(string, nat)>)
    requires queue != [] && QueueNested(world, uses, queue)
    ensures QueueNested(world, uses, queue[1..] + Expansion(world, queue[0].0, queue[0].1)) && QueueNested(world, uses, queue[1..])
    ensures WithinReach(world, uses, queue[0].0)
  {
    var (use, depth) := queue[0];
    var more := Expansion(world, use, depth);
    forall i | 0 <= i < |more| ensures more[i].1 <= 2 && Nested(world, uses, more[i].0, more[i].1) {
      assert more[i].0 in Children(world.fetch(use)) && more[i].1 == depth + 1;
    }
  }

  /** The search state, whatever has failed. */
  ghost predicate Frontier(world: World, failed: set<string>, uses: seq<string>, queue: seq<(string, nat)>, index: Index,
                           depthOf: map<string, nat>, level: nat)
  {
    && depthOf.Keys == index.Keys && Layered(queue, depthOf, level) && Progress(world, failed, uses, queue, depthOf)
    && QueueNested(world, uses, queue)
  }

  lemma FrontierStart(world: World, uses: seq<string>)
    ensures Frontier(world, {}, uses, At(FirstSeen(uses), 0), map[], map[], 0)
  {
    FirstSeenMembers(uses);
    forall u | u in uses ensures Handled(world, {}, At(FirstSeen(uses), 0), map[], u, 0) {
      QueuedIsHandled(world, {}, FirstSeen(uses), u);
    }
    forall i | 0 <= i < |FirstSeen(uses)| ensures FirstSeen(uses)[i] in uses {}
  }

  lemma FrontierSkip(world: World, failed: set<string>, uses: seq<string>, queue: seq<(string, nat)>, index: Index,
                     depthOf: map<string, nat>, level: nat)
    requires queue != [] && Frontier(world, failed, uses, queue, index, depthOf, level)
    requires !Wanted(world, queue[0].0) || queue[0].0 in index
    ensures Frontier(world, failed, uses, queue[1..], index, depthOf, level)
  {
    SkipKeepsProgress(world, failed, uses, queue, depthOf);
    ChildrenNested(world, uses, queue);
    hide Progress, QueueNested;
  }

  lemma FrontierFail(world: World, failed: set<string>, uses: seq<string>, queue: seq<(string, nat)>, index: Index,
                     depthOf: map<string, nat>, level: nat)
    requires queue != [] && Frontier(world, failed, uses, queue, index, depthOf, level)
    ensures Frontier(world, failed + {queue[0].0}, uses, queue[1..], index, depthOf, level)
    ensures WithinReach(world, uses, queue[0].0)
  {
    FailKeepsProgress(world, failed, uses, queue, depthOf);
    ChildrenNested(world, uses, queue);
    hide Progress, QueueNested, WithinReach;
  }

  lemma FrontierRead(world: World, failed: set<string>, uses: seq<string>, queue: seq<(string, nat)>, index: Index,
                     depthOf: map<string, nat>, level: nat)
    requires queue != [] && Frontier(world, failed, uses, queue, index, depthOf, level) && queue[0].0 !in index
    ensures var (use, depth) := queue[0];
            Frontier(world, failed, uses, queue[1..] + Expansion(world, use, depth), index[use := world.fetch(use)],
                     depthOf[use := depth], depth)
    ensures WithinReach(world, uses, queue[0].0)
  {
    ReadKeepsProgress(world, failed, uses, queue, depthOf);
    LayersAdvance(world, queue, depthOf, level);
    ChildrenNested(world, uses, queue);
    hide Progress, Layered, Expansion, QueueNested, WithinReach;
  }

  lemma AccountsAreTruthful(world: World, fails: nat -> bool, uses: seq<string>, asked: seq<string>, index: Index)
    requires Accounts(world, fails, uses, asked, index)
    ensures Truthful(world, index)
  {
    forall u | u in index ensures Wanted(world, u) {
      var n: nat :| n < |asked| && !fails(n) && asked[n] == u;
      KnownAreNamed(ActionOf(u));
    }
  }

  /** What holds between two turns of the search. */
  ghost predicate Searching(world: World, fails: nat -> bool, uses: seq<string>, asked: seq<string>,
                            queue: seq<(string, nat)>, index: Index, depthOf: map<string, nat>, level: nat)
  {
    && Accounts(world, fails, uses, asked, index)
    && Frontier(world, Failed(asked, fails), uses, queue, index, depthOf, level)
  }

  lemma SearchStarts(world: World, fails: nat -> bool, uses: seq<string>)
    ensures Searching(world, fails, uses, [], At(FirstSeen(uses), 0), map[], map[], 0)
  {
    FrontierStart(world, uses);
    StartAccounts(world, fails, uses);
    assert Failed([], fails) == {};
    hide Frontier, Accounts;
  }

  lemma SearchSkips(world: World, fails: nat -> bool, uses: seq<string>, asked: seq<string>,
                    queue: seq<(string, nat)>, index: Index, depthOf: map<string, nat>, level: nat)
    requires queue != [] && Searching(world, fails, uses, asked, queue, index, depthOf, level)
    requires !Wanted(world, queue[0].0) || queue[0].0 in index
    ensures Searching(world, fails, uses, asked, queue[1..], index, depthOf, level)
  {
    hide Frontier, Accounts, Failed, Wanted;
    FrontierSkip(world, Failed(asked, fails), uses, queue, index, depthOf, level);
  }

  lemma SearchFails(world: World, fails: nat -> bool, uses: seq<string>, asked: seq<string>,
                    queue: seq<(string, nat)>, index: Index, depthOf: map<string, nat>, level: nat)
    requires queue != [] && Searching(world, fails, uses, asked, queue, index, depthOf, level)
    requires Wanted(world, queue[0].0) && queue[0].0 !in index && fails(|asked|)
    ensures Searching(world, fails, uses, asked + [queue[0].0], queue[1..], index, depthOf, level)
  {
    hide Frontier, Accounts, Failed, Wanted, WithinReach;
    FailedGrows(asked, fails, queue[0].0);
    FrontierFail(world, Failed(asked, fails), uses, queue, index, depthOf, level);
    AccountsGrows(world, fails, uses, asked, index, queue[0].0);
  }

  lemma SearchReads(world: World, fails: nat -> bool, uses: seq<string>, asked: seq<string>,
                    queue: seq<(string, nat)>, index: Index, depthOf: map<string, nat>, level: nat)
    requires queue != [] && Searching(world, fails, uses, asked, queue, index, depthOf, level)
    requires Wanted(world, queue[0].0) && queue[0].0 !in index && !fails(|asked|)
    ensures var (use, depth) := queue[0];
            Searching(world, fails, uses, asked + [use], queue[1..] + Expansion(world, use, depth),
                      index[use := world.fetch(use)], depthOf[use := depth], depth)
  {
    hide Frontier, Accounts, Failed, Wanted, WithinReach, Expansion;
    FailedGrows(asked, fails, queue[0].0);
    FrontierRead(world, Failed(asked, fails), uses, queue, index, depthOf, level);
    AccountsGrows(world, fails, uses, asked, index, queue[0].0);
  }

  lemma SearchEnds(world: World, fails: nat -> bool, uses: seq<string>, asked: seq<string>,
                   queue: seq<(string, nat)>, index: Index, depthOf: map<string, nat>, level: nat)
    requires Searching(world, fails, uses, asked, queue, index, depthOf, level)
    ensures Accounts(world, fails, uses, asked, index) && Truthful(world, index)
    ensures queue == [] ==> KnowsEnough(world, Failed(asked, fails), index, uses)
    ensures queue == [] && (forall n: nat | n < |asked| :: !fails(n)) ==> KnowsEnough(world, {}, index, uses)
  {
    hide Frontier, Accounts, Failed, KnowsEnough, Truthful;
    AccountsAreTruthful(world, fails, uses, asked, index);
    if queue == [] {
      DrainedFrontier(world, Failed(asked, fails), uses, index, depthOf, level);
      if forall n: nat | n < |asked| :: !fails(n) {
        NothingFailed(asked, fails);
        assert KnowsEnough(world, {}, index, uses);
      }
    }
  }

  /** `fails(n)` says whether lookup number `n` raises; a failed lookup leaves the action unknown. The search ends when
      nothing is queued or the budget is spent, and never earlier. */
  method ResolveActions(world: World, fails: nat -> bool, uses: seq<string>,
                        maxLookups: nat := MAX_LOOKUPS)
    returns (index: Index, lookups: nat, drained: bool, ghost asked: seq<string>)
    ensures lookups <= maxLookups && (drained || lookups == maxLookups)
    ensures |asked| == lookups && Accounts(world, fails, uses, asked, index)
    ensures Truthful(world, index)
    ensures drained ==> KnowsEnough(world, Failed(asked, fails), index, uses)
    ensures drained && (forall n: nat | n < lookups :: !fails(n)) ==> KnowsEnough(world, {}, index, uses)
  {
    index, lookups, asked := map[], 0, [];
    var queue := At(FirstSeen(uses), 0);
    ghost var depthOf: map<string, nat> := map[];
    ghost var level: nat := 0;
    SearchStarts(world, fails, uses);
    hide Wanted, Searching, FirstSeen, Accounts, KnowsEnough, Failed, Truthful, At, Children;
    while queue != [] && lookups < maxLookups
      invariant lookups <= maxLookups && |asked| == lookups
      invariant Searching(world, fails, uses, asked, queue, index, depthOf, level)
      decreases maxLookups - lookups, |queue|
    {
      ghost var before := queue;
      var (use, depth) := queue[0];
      queue := queue[1..];
      if !Wanted(world, use) || use in index {
        SearchSkips(world, fails, uses, asked, before, index, depthOf, level);
      } else {
        lookups := lookups + 1;
        if fails(lookups - 1) {
          SearchFails(world, fails, uses, asked, before, index, depthOf, level);
        } else {
          SearchReads(world, fails, uses, asked, before, index, depthOf, level);
          var manifest := world.fetch(use);
          index := index[use := manifest];
          if depth + 1 < MAX_DEPTH {
            queue := queue + At(Children(manifest), depth + 1);
          } else {
            assert before[1..] + [] == before[1..];
          }
          depthOf := depthOf[use := depth];
          level := depth;
        }
        asked := asked + [use];
      }
    }
    drained := queue == [];
    SearchEnds(world, fails, uses, asked, queue, index, depthOf, level);
  }

  lemma StartAccounts(world: World, fails: nat -> bool, uses: seq<string>)
    ensures Accounts(world, fails, uses, [], map[])
  {
  }

  lemma DrainedFrontier(world: World, failed: set<string>, uses: seq<string>, index: Index, depthOf: map<string, nat>,
                        level: nat)
    requires Frontier(world, failed, uses, [], index, depthOf, level)
    ensures KnowsEnough(world, failed, index, uses)
  {
    DrainedKnowsEnough(world, failed, index, uses, depthOf);
  }
}
