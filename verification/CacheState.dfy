/** Is an install's dependency cache on? A depth-bounded reading of steps through composite actions
    (src/cadence/detectors/cache.py:267-446, src/cadence/actions.py:99-170). */
module CacheState {
  import opened Common
  import opened Text

  // ---------------------------------------------------------------- parsed steps

  /** An input as YAML reads it; `Other` is null, a number or a collection. */
  datatype Value = Flag(b: bool) | Str(s: string) | Other(truthy: bool)

  predicate Truthy(v: Value) {
    match v case Flag(b) => b case Str(s) => s != "" case Other(truthy) => truthy
  }

  /** `uses` is empty for a `run:` step; `major` and `version` are its reference read as a version. */
  datatype Step = Step(index: int, uses: string, inputs: map<string, Value>, major: Option<nat>, version: seq<nat>)

  predicate Given(step: Step, key: string) { key in step.inputs && Truthy(step.inputs[key]) }

  /** `owner/action` from `owner/action@ref`; the resolver's `_identity` is the same function. */
  function ActionOf(uses: string): string { Strip(Before(uses, '@')) }

  datatype Label = SelfHosted | HostedRunner | OtherLabel

  datatype PackageJson = PackageJson(fetched: bool, declaresNpm: bool)

  /** What every step of the job shares. */
  datatype Env = Env(packageJson: PackageJson, runsOn: seq<Label>)

  datatype Manifest = Manifest(composite: bool, steps: seq<Step>)

  /** What is known about each reference: a manifest, that there is none (`None`), or nothing (no entry). */
  type Index = map<string, Option<Manifest>>

  datatype Verdict = Cached | Uncached | Disabled | Unknown

  // ---------------------------------------------------------------- the actions that are modelled

  const CHECKOUT := "actions/checkout"
  const CACHE_ACTION := "actions/cache"
  const SETUP_NODE := "actions/setup-node"
  const AUTO_CACHE_MAJOR := 5

  predicate IsCacheEquivalent(a: string) {
    a in {"Swatinem/rust-cache", "actions/cache/restore", "buildjet/cache", "runs-on/cache", "useblacksmith/cache"}
  }

  predicate IsSetupAction(a: string) {
    a in {SETUP_NODE, "actions/setup-python", "actions/setup-java", "actions/setup-go", "actions/setup-dotnet",
          "ruby/setup-ruby", "astral-sh/setup-uv", "pnpm/action-setup"}
  }

  predicate IsKnown(a: string) {
    || a == CHECKOUT || a == CACHE_ACTION || IsCacheEquivalent(a) || IsSetupAction(a)
    || a in {"actions/upload-artifact", "actions/download-artifact", "actions/github-script",
             "actions/create-github-app-token", "step-security/harden-runner", "actions/cache/save"}
  }

  // ---------------------------------------------------------------- one setup step

  /** An input counts as a switch only when it is a YAML boolean or spells one; anything else decides nothing. */
  function BooleanCacheState(step: Step, key: string, default: Verdict): Verdict {
    if key !in step.inputs then default
    else
      match step.inputs[key]
      case Flag(b) => if b then Cached else Disabled
      case Str(s) => if Strip(s) == "true" then Cached else if Strip(s) == "false" then Disabled else Unknown
      case Other(_) => Unknown
  }

  predicate VersionAtLeast67(v: seq<nat>) {
    |v| >= 1 && (v[0] > 6 || (v[0] == 6 && |v| >= 2 && v[1] >= 7))
  }

  /** setup-uv's `auto`: on for standard hosted runners, off for self-hosted ones. */
  function AutoByRunner(runsOn: seq<Label>): Verdict {
    if SelfHosted in runsOn then Uncached
    else if |runsOn| == 1 && runsOn[0] == HostedRunner then Cached
    else Unknown
  }

  function SetupUvState(step: Step, runsOn: seq<Label>): Verdict {
    var supportsRestore := step.version == [6] || VersionAtLeast67(step.version);
    var restore := BooleanCacheState(step, "restore-cache", Unknown);
    if (step.version == [] || supportsRestore) && "restore-cache" in step.inputs && restore != Cached then
      if supportsRestore then restore else Unknown
    else if "enable-cache" in step.inputs then
      if step.inputs["enable-cache"] != Str("auto") then BooleanCacheState(step, "enable-cache", Unknown)
      else if step.major.None? || step.major.value < 5 then Unknown
      else AutoByRunner(runsOn)
    else if step.major.None? then Unknown
    else if step.major.value < 5 then Uncached
    else AutoByRunner(runsOn)
  }

  function SetupCacheState(step: Step, runsOn: seq<Label>): Option<Verdict> {
    var action := ActionOf(step.uses);
    if action == "ruby/setup-ruby" then Some(BooleanCacheState(step, "bundler-cache", Uncached))
    else if action == "actions/setup-go" then
      if step.major.Some? && step.major.value < 3 then Some(Uncached)
      else
        var default := if step.major.None? then Unknown else if step.major.value >= 4 then Cached else Uncached;
        Some(BooleanCacheState(step, "cache", default))
    else if action == "astral-sh/setup-uv" then Some(SetupUvState(step, runsOn))
    else None
  }

  predicate ExplicitlyDisabled(step: Step) {
    var key := "package-manager-cache";
    key in step.inputs &&
    match step.inputs[key] case Flag(b) => !b case Str(s) => Lower(Strip(s)) == "false" case Other(_) => false
  }

  /** Mirrors setup-node: by itself it caches from v5, after a checkout of this repository that names npm. */
  predicate SetupNodeCaches(step: Step, checkout: Option<Step>, packageJson: PackageJson) {
    Given(step, "cache") ||
    (&& !ExplicitlyDisabled(step)
     && (step.major.Some? ==> step.major.value >= AUTO_CACHE_MAJOR)
     && checkout.Some?
     && (Given(checkout.value, "path") || Given(checkout.value, "repository")
         || !packageJson.fetched || packageJson.declaresNpm))
  }

  // ---------------------------------------------------------------- a list of steps

  /** The steps that stand behind a reference, as far as the index goes: none inside an action that is code. */
  function ManifestSteps(index: Index, uses: string): Option<seq<Step>> {
    if uses == "" || uses !in index || index[uses].None? then None
    else if index[uses].value.composite then Some(index[uses].value.steps) else Some([])
  }

  /** What one step says, given the checkout seen so far; `Uncached` stands for "nothing". */
  function StepVerdict(env: Env, index: Index, step: Step, checkout: Option<Step>, depth: nat): Verdict
    decreases if depth < 2 then 2 - depth else 0, 0
  {
    var action := ActionOf(step.uses);
    if step.uses == "" || action == CHECKOUT then Uncached
    else if action == CACHE_ACTION || IsCacheEquivalent(action) then Cached
    else if SetupCacheState(step, env.runsOn).Some? then SetupCacheState(step, env.runsOn).value
    else if IsSetupAction(action) && Given(step, "cache") then Cached
    else if action == SETUP_NODE then
      if ExplicitlyDisabled(step) then Disabled
      else if SetupNodeCaches(step, checkout, env.packageJson) then Cached
      else Uncached
    else if IsKnown(action) then Uncached
    else
      var inner := ManifestSteps(index, step.uses);
      if inner.None? || depth >= 2 then Unknown
      else Walk(env, index, inner.value, checkout, depth + 1, false, false)
  }

  function NextCheckout(step: Step, checkout: Option<Step>): Option<Step> {
    if step.uses != "" && ActionOf(step.uses) == CHECKOUT then Some(step) else checkout
  }

  function Conclude(unknown: bool, disabled: bool): Verdict {
    if disabled then Disabled else if unknown then Unknown else Uncached
  }

  /** The state of the loop of cache.py:301-340 run to its end. */
  function Walk(env: Env, index: Index, steps: seq<Step>, checkout: Option<Step>, depth: nat,
                unknown: bool, disabled: bool): Verdict
    decreases if depth < 2 then 2 - depth else 0, |steps| + 1
  {
    if steps == [] then Conclude(unknown, disabled)
    else
      var v := StepVerdict(env, index, steps[0], checkout, depth);
      if v == Cached then Cached
      else Walk(env, index, steps[1..], NextCheckout(steps[0], checkout), depth,
                unknown || v == Unknown, disabled || v == Disabled)
  }

  method StepsState(env: Env, index: Index, steps: seq<Step>, checkout: Option<Step>, depth: nat)
    returns (verdict: Verdict)
    ensures verdict == Walk(env, index, steps, checkout, depth, false, false)
    decreases if depth < 2 then 2 - depth else 0
  {
    hide IsKnown, IsSetupAction, IsCacheEquivalent, SetupCacheState, SetupNodeCaches, ExplicitlyDisabled, Given, ActionOf;
    var unknown, disabled, seen := false, false, checkout;
    var i := 0;
    while i < |steps|
      invariant i <= |steps|
      invariant Walk(env, index, steps, checkout, depth, false, false) ==
                Walk(env, index, steps[i..], seen, depth, unknown, disabled)
    {
      var step := steps[i];
      assert steps[i..][0] == step && steps[i..][1..] == steps[i + 1..];
      i := i + 1;
      if step.uses == "" {
        continue;
      }
      var action := ActionOf(step.uses);
      if action == CHECKOUT {
        seen := Some(step);
        continue;
      }
      if action == CACHE_ACTION || IsCacheEquivalent(action) {
        return Cached;
      }
      var state := SetupCacheState(step, env.runsOn);
      if state.Some? {
        if state.value == Cached {
          return Cached;
        }
        unknown := unknown || state.value == Unknown;
        disabled := disabled || state.value == Disabled;
        continue;
      }
      if IsSetupAction(action) && Given(step, "cache") {
        return Cached;
      }
      if action == SETUP_NODE {
        if ExplicitlyDisabled(step) {
          disabled := true;
        } else if SetupNodeCaches(step, seen, env.packageJson) {
          return Cached;
        }
        continue;
      }
      if IsKnown(action) {
        continue;
      }
      var inner := ManifestSteps(index, step.uses);
      if inner.None? || depth >= 2 {
        unknown := true;
        continue;
      }
      var innerState := StepsState(env, index, inner.value, seen, depth + 1);
      if innerState == Cached {
        return Cached;
      }
      unknown := unknown || innerState == Unknown;
      disabled := disabled || innerState == Disabled;
    }
    assert steps[i..] == [];
    verdict := if disabled then Disabled else if unknown then Unknown else Uncached;
  }

  // ---------------------------------------------------------------- what a list of steps says

  predicate IsCheckout(step: Step) { step.uses != "" && ActionOf(step.uses) == "actions/checkout" }

  /** Step `k` is the last checkout ahead of step `i`. */
  ghost predicate LastAhead(steps: seq<Step>, i: nat, k: nat)
    requires i <= |steps|
  {
    k < i && IsCheckout(steps[k]) && forall m | k < m < i :: !IsCheckout(steps[m])
  }

  ghost predicate NoneAhead(steps: seq<Step>, i: nat)
    requires i <= |steps|
  {
    forall m | 0 <= m < i :: !IsCheckout(steps[m])
  }

  /** The checkout a step finds: the last one among the steps ahead of it, or the one the list started with. */
  ghost predicate IsCheckoutAhead(steps: seq<Step>, i: nat, start: Option<Step>, c: Option<Step>)
    requires i <= |steps|
  {
    (exists k: nat :: LastAhead(steps, i, k) && c == Some(steps[k])) || (NoneAhead(steps, i) && c == start)
  }

  /** Step `i` of the list answers `v`. */
  ghost predicate Answers(env: Env, index: Index, steps: seq<Step>, start: Option<Step>, depth: nat, i: nat, v: Verdict) {
    i < |steps| && exists c :: IsCheckoutAhead(steps, i, start, c) && StepVerdict(env, index, steps[i], c, depth) == v
  }

  ghost predicate Somewhere(env: Env, index: Index, steps: seq<Step>, start: Option<Step>, depth: nat, v: Verdict) {
    exists i: nat :: Answers(env, index, steps, start, depth, i, v)
  }

  lemma FirstAnswers(env: Env, index: Index, steps: seq<Step>, start: Option<Step>, depth: nat, v: Verdict)
    requires steps != []
    ensures Answers(env, index, steps, start, depth, 0, v) <==> StepVerdict(env, index, steps[0], start, depth) == v
  {
    hide StepVerdict, IsCheckout;
    assert IsCheckoutAhead(steps, 0, start, start);
  }

  lemma LastAheadShifts(steps: seq<Step>, i: nat, k: nat)
    requires i < |steps|
    ensures LastAhead(steps, i + 1, k + 1) <==> LastAhead(steps[1..], i, k)
    ensures NoneAhead(steps, i + 1) <==> !IsCheckout(steps[0]) && NoneAhead(steps[1..], i)
    ensures LastAhead(steps, i + 1, 0) <==> IsCheckout(steps[0]) && NoneAhead(steps[1..], i)
  {
    hide IsCheckout;
    var tail := steps[1..];
    assert forall m | 0 <= m < |tail| :: tail[m] == steps[m + 1];
    assert forall m | 0 < m < |steps| :: steps[m] == tail[m - 1];
  }

  lemma AheadShifts(steps: seq<Step>, i: nat, start: Option<Step>, c: Option<Step>)
    requires i < |steps|
    ensures IsCheckoutAhead(steps, i + 1, start, c) <==>
            IsCheckoutAhead(steps[1..], i, NextCheckout(steps[0], start), c)
  {
    var tail, next := steps[1..], NextCheckout(steps[0], start);
    assert next == if IsCheckout(steps[0]) then Some(steps[0]) else start;
    hide IsCheckout, NextCheckout, LastAhead, NoneAhead;
    forall k: nat ensures LastAhead(steps, i + 1, k + 1) <==> LastAhead(tail, i, k) { LastAheadShifts(steps, i, k); }
    LastAheadShifts(steps, i, 0);
    if k: nat :| LastAhead(steps, i + 1, k) && c == Some(steps[k]) {
      if k > 0 { InRange(tail, i, k - 1); assert LastAhead(tail, i, k - 1) && tail[k - 1] == steps[k]; }
    }
    if k: nat :| LastAhead(tail, i, k) && c == Some(tail[k]) {
      InRange(tail, i, k);
      assert LastAhead(steps, i + 1, k + 1) && tail[k] == steps[k + 1];
    }
  }

  lemma InRange(steps: seq<Step>, i: nat, k: nat)
    requires i <= |steps| && LastAhead(steps, i, k)
    ensures k < i
  {
  }

  lemma AnswersShift(env: Env, index: Index, steps: seq<Step>, start: Option<Step>, depth: nat, i: nat, v: Verdict)
    requires steps != []
    ensures Answers(env, index, steps, start, depth, i + 1, v) <==>
            Answers(env, index, steps[1..], NextCheckout(steps[0], start), depth, i, v)
  {
    hide StepVerdict, NextCheckout, IsCheckoutAhead;
    if i + 1 < |steps| {
      assert steps[1..][i] == steps[i + 1];
      forall c ensures IsCheckoutAhead(steps, i + 1, start, c) <==>
                       IsCheckoutAhead(steps[1..], i, NextCheckout(steps[0], start), c)
      {
        AheadShifts(steps, i, start, c);
      }
    }
  }

  lemma SomewhereUnfolds(env: Env, index: Index, steps: seq<Step>, start: Option<Step>, depth: nat, v: Verdict)
    requires steps != []
    ensures Somewhere(env, index, steps, start, depth, v) <==>
              || StepVerdict(env, index, steps[0], start, depth) == v
              || Somewhere(env, index, steps[1..], NextCheckout(steps[0], start), depth, v)
  {
    FirstAnswers(env, index, steps, start, depth, v);
    hide StepVerdict, NextCheckout, Answers;
    var tail, next := steps[1..], NextCheckout(steps[0], start);
    if i: nat :| Answers(env, index, steps, start, depth, i, v) {
      if i > 0 { AnswersShift(env, index, steps, start, depth, i - 1, v); }
    }
    if i: nat :| Answers(env, index, tail, next, depth, i, v) {
      AnswersShift(env, index, steps, start, depth, i, v);
    }
  }

  lemma NowhereInNothing(env: Env, index: Index, start: Option<Step>, depth: nat, v: Verdict)
    ensures !Somewhere(env, index, [], start, depth, v)
  {
  }

  /** A list is cached if any of its steps is; else disabled if any is, else unknown if any is, else uncached. */
  lemma {:induction false} WalkSaysWhatStepsSay(env: Env, index: Index, steps: seq<Step>, start: Option<Step>, depth: nat,
                                                 unknown: bool, disabled: bool)
    ensures Walk(env, index, steps, start, depth, unknown, disabled) ==
              if Somewhere(env, index, steps, start, depth, Cached) then Cached
              else if disabled || Somewhere(env, index, steps, start, depth, Disabled) then Disabled
              else if unknown || Somewhere(env, index, steps, start, depth, Unknown) then Unknown
              else Uncached
    decreases |steps|
  {
    if steps == [] {
      forall v ensures !Somewhere(env, index, steps, start, depth, v) { NowhereInNothing(env, index, start, depth, v); }
    } else {
      var v := StepVerdict(env, index, steps[0], start, depth);
      SomewhereUnfolds(env, index, steps, start, depth, Cached);
      SomewhereUnfolds(env, index, steps, start, depth, Disabled);
      SomewhereUnfolds(env, index, steps, start, depth, Unknown);
      hide StepVerdict, NextCheckout, Somewhere;
      WalkSaysWhatStepsSay(env, index, steps[1..], NextCheckout(steps[0], start), depth,
                           unknown || v == Unknown, disabled || v == Disabled);
    }
  }

  // ---------------------------------------------------------------- what one step says

  /** The input spells a boolean, as YAML or as text. */
  ghost predicate Spells(step: Step, key: string, b: bool) {
    && key in step.inputs
    && (step.inputs[key] == Flag(b)
        || exists s :: step.inputs[key] == Str(s) && Strip(s) == if b then "true" else "false")
  }

  ghost predicate IsSet(step: Step, key: string) {
    key in step.inputs && step.inputs[key] !in {Flag(false), Str(""), Other(false)}
  }

  lemma SetMeansGiven(step: Step, key: string)
    ensures IsSet(step, key) <==> Given(step, key)
  {
  }

  lemma SpellsOneOf(step: Step, key: string, default: Verdict)
    ensures BooleanCacheState(step, key, default) ==
              if key !in step.inputs then default
              else if Spells(step, key, true) then Cached
              else if Spells(step, key, false) then Disabled
              else Unknown
    ensures !(Spells(step, key, true) && Spells(step, key, false))
  {
    assert "true" != "false";
    hide Strip;
  }

  /** Steps that run a command or check out code say nothing. */
  lemma SilentSteps(env: Env, index: Index, step: Step, checkout: Option<Step>, depth: nat)
    requires step.uses == "" || IsCheckout(step)
    ensures StepVerdict(env, index, step, checkout, depth) == Uncached
  {
  }

  lemma CachingActions(env: Env, index: Index, step: Step, checkout: Option<Step>, depth: nat)
    requires step.uses != ""
    requires ActionOf(step.uses) in {"actions/cache", "Swatinem/rust-cache", "actions/cache/restore", "buildjet/cache",
                                     "runs-on/cache", "useblacksmith/cache"}
    ensures StepVerdict(env, index, step, checkout, depth) == Cached
  {
  }

  lemma HarmlessActions(env: Env, index: Index, step: Step, checkout: Option<Step>, depth: nat)
    requires step.uses != ""
    requires ActionOf(step.uses) in {"actions/upload-artifact", "actions/download-artifact", "actions/github-script",
                                     "actions/create-github-app-token", "step-security/harden-runner",
                                     "actions/cache/save"}
    ensures StepVerdict(env, index, step, checkout, depth) == Uncached
  {
  }

  /** setup-ruby caches exactly when `bundler-cache` says so. */
  lemma SetupRubySays(env: Env, index: Index, step: Step, checkout: Option<Step>, depth: nat)
    requires step.uses != "" && ActionOf(step.uses) == "ruby/setup-ruby"
    ensures StepVerdict(env, index, step, checkout, depth) ==
              if "bundler-cache" !in step.inputs then Uncached
              else if Spells(step, "bundler-cache", true) then Cached
              else if Spells(step, "bundler-cache", false) then Disabled
              else Unknown
  {
    SpellsOneOf(step, "bundler-cache", Uncached);
    hide ActionOf, BooleanCacheState, Spells, IsKnown, SetupUvState;
  }

  /** setup-go has no cache before version 3, one that is off in version 3, and one that is on from version 4. */
  lemma SetupGoSays(env: Env, index: Index, step: Step, checkout: Option<Step>, depth: nat)
    requires step.uses != "" && ActionOf(step.uses) == "actions/setup-go"
    ensures StepVerdict(env, index, step, checkout, depth) ==
              if step.major.Some? && step.major.value <= 2 then Uncached
              else if "cache" in step.inputs then
                if Spells(step, "cache", true) then Cached else if Spells(step, "cache", false) then Disabled else Unknown
              else if step.major == None then Unknown
              else if step.major == Some(3) then Uncached
              else Cached
  {
    SpellsOneOf(step, "cache", Unknown);
    SpellsOneOf(step, "cache", Cached);
    SpellsOneOf(step, "cache", Uncached);
    hide ActionOf, BooleanCacheState, Spells, IsKnown, SetupUvState;
  }

  /** What setup-uv does by itself: it caches on one standard hosted runner and on no self-hosted one. */
  ghost predicate RunnerDecides(runsOn: seq<Label>, v: Verdict) {
    match v
    case Cached => runsOn == [HostedRunner]
    case Uncached => SelfHosted in runsOn
    case Unknown => SelfHosted !in runsOn && runsOn != [HostedRunner]
    case Disabled => false
  }

  /** `restore-cache` counts from 6.7 on, also for the floating 6; for a pin that is no version it may count. */
  ghost predicate RestoreCounts(version: seq<nat>) {
    version == [6] || (|version| >= 2 && version[0] == 6 && version[1] >= 7) || (|version| >= 1 && version[0] >= 7)
  }

  lemma RestoreCountsMeans(version: seq<nat>)
    ensures RestoreCounts(version) <==> version == [6] || VersionAtLeast67(version)
  {
  }

  lemma RunnerDecidesMeans(runsOn: seq<Label>, v: Verdict)
    ensures RunnerDecides(runsOn, v) <==> AutoByRunner(runsOn) == v
  {
    if |runsOn| == 1 { assert runsOn == [runsOn[0]]; }
  }

  lemma SetupUvSays(env: Env, index: Index, step: Step, checkout: Option<Step>, depth: nat)
    requires step.uses != "" && ActionOf(step.uses) == "astral-sh/setup-uv"
    ensures var v := StepVerdict(env, index, step, checkout, depth);
            var refused := "restore-cache" in step.inputs && !Spells(step, "restore-cache", true);
            if refused && RestoreCounts(step.version) then
              v == if Spells(step, "restore-cache", false) then Disabled else Unknown
            else if refused && step.version == [] then v == Unknown
            else if "enable-cache" in step.inputs && step.inputs["enable-cache"] != Str("auto") then
              v == if Spells(step, "enable-cache", true) then Cached
                   else if Spells(step, "enable-cache", false) then Disabled else Unknown
            else if step.major == None then v == Unknown
            else if step.major.value <= 4 then v == if "enable-cache" in step.inputs then Unknown else Uncached
            else RunnerDecides(env.runsOn, v)
  {
    SpellsOneOf(step, "restore-cache", Unknown);
    SpellsOneOf(step, "enable-cache", Unknown);
    RestoreCountsMeans(step.version);
    RunnerDecidesMeans(env.runsOn, AutoByRunner(env.runsOn));
    hide ActionOf, BooleanCacheState, Spells, IsKnown, AutoByRunner, VersionAtLeast67, RestoreCounts, RunnerDecides;
  }

  ghost predicate OptsOut(step: Step) {
    var key := "package-manager-cache";
    key in step.inputs
    && (step.inputs[key] == Flag(false) || exists s :: step.inputs[key] == Str(s) && Lower(Strip(s)) == "false")
  }

  /** setup-node caches when told to; unless told not to, from version 5 on also by itself, once something that is not
      known to be without npm was checked out. */
  lemma SetupNodeSays(env: Env, index: Index, step: Step, checkout: Option<Step>, depth: nat)
    requires step.uses != "" && ActionOf(step.uses) == "actions/setup-node"
    ensures StepVerdict(env, index, step, checkout, depth) ==
              if IsSet(step, "cache") then Cached
              else if OptsOut(step) then Disabled
              else if (step.major.None? || step.major.value >= 5)
                      && checkout.Some?
                      && (IsSet(checkout.value, "path") || IsSet(checkout.value, "repository")
                          || !(env.packageJson.fetched && !env.packageJson.declaresNpm))
                   then Cached
              else Uncached
  {
    SetMeansGiven(step, "cache");
    if checkout.Some? {
      SetMeansGiven(checkout.value, "path");
      SetMeansGiven(checkout.value, "repository");
    }
    OptsOutMeans(step);
    hide ActionOf, IsKnown, SetupUvState, BooleanCacheState, Given, IsSet, OptsOut, ExplicitlyDisabled;
  }

  lemma OptsOutMeans(step: Step)
    ensures OptsOut(step) <==> ExplicitlyDisabled(step)
  {
    hide Strip, Lower;
  }

  /** The other setup actions cache exactly when `cache` is given. */
  lemma OtherSetupsSay(env: Env, index: Index, step: Step, checkout: Option<Step>, depth: nat)
    requires step.uses != ""
    requires ActionOf(step.uses) in {"actions/setup-python", "actions/setup-java", "actions/setup-dotnet",
                                     "pnpm/action-setup"}
    ensures StepVerdict(env, index, step, checkout, depth) == if IsSet(step, "cache") then Cached else Uncached
  {
    SetMeansGiven(step, "cache");
    hide ActionOf, SetupUvState, BooleanCacheState, Given, IsSet;
  }

  ghost predicate IsNamed(action: string) {
    action in {"actions/checkout", "actions/cache", "Swatinem/rust-cache", "actions/cache/restore", "buildjet/cache",
               "runs-on/cache", "useblacksmith/cache", "actions/setup-node", "actions/setup-python",
               "actions/setup-java", "actions/setup-go", "actions/setup-dotnet", "ruby/setup-ruby",
               "astral-sh/setup-uv", "pnpm/action-setup", "actions/upload-artifact", "actions/download-artifact",
               "actions/github-script", "actions/create-github-app-token", "step-security/harden-runner",
               "actions/cache/save"}
  }

  lemma KnownAreNamed(action: string)
    ensures IsKnown(action) <==> IsNamed(action)
  {
  }

  /** Any other action says what its steps say, two levels down at most; it is unknown when it was not read. */
  lemma OtherActionsSay(env: Env, index: Index, step: Step, checkout: Option<Step>, depth: nat)
    requires step.uses != "" && !IsNamed(ActionOf(step.uses))
    ensures var v := StepVerdict(env, index, step, checkout, depth);
            if step.uses !in index || index[step.uses] == None || depth >= 2 then v == Unknown
            else if !index[step.uses].value.composite then v == Uncached
            else v == Walk(env, index, index[step.uses].value.steps, checkout, depth + 1, false, false)
  {
    KnownAreNamed(ActionOf(step.uses));
    hide ActionOf, SetupUvState, BooleanCacheState, SetupNodeCaches;
  }

  // ---------------------------------------------------------------- information monotonicity

  /** `big` knows everything `small` knows. */
  ghost predicate Extends(small: Index, big: Index) {
    forall u | u in small :: u in big && big[u] == small[u]
  }

  /** How a verdict may move as more is known. */
  predicate Settles(before: Verdict, after: Verdict) {
    match before
    case Cached => after == Cached
    case Uncached => after == Uncached
    case Disabled => after == Disabled || after == Cached
    case Unknown => true
  }

  /** Once something was unreadable or switched off, the walk cannot end in `uncached`. */
  lemma {:induction false} DoubtOrDisabled(env: Env, index: Index, steps: seq<Step>, checkout: Option<Step>,
                                           depth: nat, unknown: bool, disabled: bool)
    requires unknown || disabled
    ensures Walk(env, index, steps, checkout, depth, unknown, disabled) != Uncached
    decreases |steps|
  {
    if steps != [] {
      var v := StepVerdict(env, index, steps[0], checkout, depth);
      DoubtOrDisabled(env, index, steps[1..], NextCheckout(steps[0], checkout), depth,
                      unknown || v == Unknown, disabled || v == Disabled);
    }
  }

  lemma {:induction false} StepSettles(env: Env, small: Index, big: Index, step: Step, checkout: Option<Step>,
                                       depth: nat)
    requires Extends(small, big)
    ensures Settles(StepVerdict(env, small, step, checkout, depth), StepVerdict(env, big, step, checkout, depth))
    decreases if depth < 2 then 2 - depth else 0, 0
  {
    hide IsKnown, IsSetupAction, IsCacheEquivalent, SetupCacheState, SetupNodeCaches, ExplicitlyDisabled, Given, ActionOf;
    var inner := ManifestSteps(small, step.uses);
    if inner.Some? && depth < 2 {
      assert ManifestSteps(big, step.uses) == inner;
      WalkSettles(env, small, big, inner.value, checkout, depth + 1, false, false, false, false);
    }
  }

  /** Learning more never changes `cached` or `uncached`, and can change `disabled` only to `cached`. */
  lemma {:induction false} WalkSettles(env: Env, small: Index, big: Index, steps: seq<Step>, checkout: Option<Step>,
                                       depth: nat, u: bool, d: bool, u': bool, d': bool)
    requires Extends(small, big)
    requires (d ==> d') && (!u ==> !u' && d == d')
    ensures Settles(Walk(env, small, steps, checkout, depth, u, d), Walk(env, big, steps, checkout, depth, u', d'))
    decreases if depth < 2 then 2 - depth else 0, |steps| + 1
  {
    if steps != [] {
      var v := StepVerdict(env, small, steps[0], checkout, depth);
      var v' := StepVerdict(env, big, steps[0], checkout, depth);
      var next := NextCheckout(steps[0], checkout);
      StepSettles(env, small, big, steps[0], checkout, depth);
      hide StepVerdict, NextCheckout;
      if v' == Cached && v != Cached {
        DoubtOrDisabled(env, small, steps[1..], next, depth, u || v == Unknown, d || v == Disabled);
      } else if v != Cached {
        WalkSettles(env, small, big, steps[1..], next, depth, u || v == Unknown, d || v == Disabled,
                    u' || v' == Unknown, d' || v' == Disabled);
      }
    }
  }

  // ---------------------------------------------------------------- a whole job

  function Ahead(steps: seq<Step>, at: int): seq<Step> {
    if steps == [] then [] else (if steps[0].index < at then [steps[0]] else []) + Ahead(steps[1..], at)
  }

  function Behind(steps: seq<Step>, at: int): seq<Step> {
    if steps == [] then [] else (if steps[0].index > at then [steps[0]] else []) + Behind(steps[1..], at)
  }

  function LastCheckout(steps: seq<Step>, sofar: Option<Step>): Option<Step> {
    if steps == [] then sofar else LastCheckout(steps[1..], NextCheckout(steps[0], sofar))
  }

  function BeforeState(env: Env, index: Index, steps: seq<Step>, at: int): Verdict {
    Walk(env, index, Ahead(steps, at), None, 0, false, false)
  }

  function AfterState(env: Env, index: Index, steps: seq<Step>, at: int): Verdict {
    Walk(env, index, Behind(steps, at), LastCheckout(Ahead(steps, at), None), 0, false, false)
  }

  /** Behind the install only a definite cache matters; doubt there is ignored (cache.py:267-289). */
  function JobState(env: Env, index: Index, steps: seq<Step>, at: int): Verdict {
    var state := BeforeState(env, index, steps, at);
    if state == Cached || AfterState(env, index, steps, at) == Cached then Cached else state
  }

  /** Steps carry their places in the job, in order. */
  ghost predicate Numbered(steps: seq<Step>) {
    forall i, j | 0 <= i < j < |steps| :: steps[i].index < steps[j].index
  }

  lemma {:induction false} AheadIsPrefix(steps: seq<Step>, k: nat, at: int)
    requires k <= |steps| && (forall i | 0 <= i < k :: steps[i].index < at)
    requires forall i | k <= i < |steps| :: at <= steps[i].index
    ensures Ahead(steps, at) == steps[..k]
    decreases |steps|
  {
    if steps != [] {
      AheadIsPrefix(steps[1..], if k > 0 then k - 1 else 0, at);
      if k > 0 { assert steps[..k] == [steps[0]] + steps[1..][..k - 1]; }
    }
  }

  lemma {:induction false} BehindIsSuffix(steps: seq<Step>, k: nat, at: int)
    requires k <= |steps| && (forall i | 0 <= i < k :: steps[i].index <= at)
    requires forall i | k <= i < |steps| :: at < steps[i].index
    ensures Behind(steps, at) == steps[k..]
    decreases |steps|
  {
    if steps != [] {
      BehindIsSuffix(steps[1..], if k > 0 then k - 1 else 0, at);
      if k == 0 { assert steps == [steps[0]] + steps[1..]; }
    }
  }

  lemma {:induction false} LastCheckoutIsAhead(steps: seq<Step>, start: Option<Step>)
    ensures IsCheckoutAhead(steps, |steps|, start, LastCheckout(steps, start))
    decreases |steps|
  {
    if steps != [] {
      LastCheckoutIsAhead(steps[1..], NextCheckout(steps[0], start));
      AheadShifts(steps, |steps| - 1, start, LastCheckout(steps, start));
    }
  }

  /** A job is cached when a step ahead of its install or behind it caches; the steps behind find the last checkout
      ahead. Otherwise the steps ahead alone decide, and those behind are not even doubted. */
  lemma JobSaysWhatStepsSay(env: Env, index: Index, steps: seq<Step>, k: nat) returns (checkout: Option<Step>)
    requires Numbered(steps) && k < |steps|
    ensures IsCheckoutAhead(steps[..k], k, None, checkout)
    ensures var ahead, behind := steps[..k], steps[k + 1..];
            JobState(env, index, steps, steps[k].index) ==
              if Somewhere(env, index, ahead, None, 0, Cached) || Somewhere(env, index, behind, checkout, 0, Cached) then Cached
              else if Somewhere(env, index, ahead, None, 0, Disabled) then Disabled
              else if Somewhere(env, index, ahead, None, 0, Unknown) then Unknown
              else Uncached
  {
    var at, ahead, behind := steps[k].index, steps[..k], steps[k + 1..];
    AheadIsPrefix(steps, k, at);
    BehindIsSuffix(steps, k + 1, at);
    checkout := LastCheckout(ahead, None);
    LastCheckoutIsAhead(ahead, None);
    WalkSaysWhatStepsSay(env, index, ahead, None, 0, false, false);
    WalkSaysWhatStepsSay(env, index, behind, checkout, 0, false, false);
    hide Walk, Somewhere, IsCheckoutAhead, LastCheckout;
  }

  /** A job's verdict is less stable than a walk's: exactly a newly readable cache behind the install
      turns `uncached` into `cached`, and it can turn into nothing else. */
  lemma JobStateSettles(env: Env, small: Index, big: Index, steps: seq<Step>, at: int)
    requires Extends(small, big)
    ensures JobState(env, small, steps, at) == Cached ==> JobState(env, big, steps, at) == Cached
    ensures JobState(env, small, steps, at) == Disabled ==> JobState(env, big, steps, at) in {Disabled, Cached}
    ensures JobState(env, small, steps, at) == Uncached && JobState(env, big, steps, at) != Uncached <==>
              && BeforeState(env, small, steps, at) == Uncached
              && AfterState(env, small, steps, at) in {Unknown, Disabled}
              && AfterState(env, big, steps, at) == Cached
  {
    WalkSettles(env, small, big, Ahead(steps, at), None, 0, false, false, false, false);
    WalkSettles(env, small, big, Behind(steps, at), LastCheckout(Ahead(steps, at), None), 0, false, false, false, false);
    hide Walk;
  }

  /** An action's identity does not depend on the reference it is pinned to. */
  lemma ActionIsVersionIndependent(action: string, pin: string)
    requires Trimmed(action) && '@' !in action && (pin == "" || pin[0] == '@')
    ensures ActionOf(action + pin) == action
  {
    BeforeFinds(action, pin, '@');
  }

  lemma LocalPathIsNotModelled(step: Step, env: Env)
    requires step.uses != "" && |ActionOf(step.uses)| > 0 && ActionOf(step.uses)[0] == '.'
    ensures !IsKnown(ActionOf(step.uses)) && SetupCacheState(step, env.runsOn) == None
  {
    hide ActionOf, SetupUvState, BooleanCacheState;
    var a := ActionOf(step.uses);
    assert a[0] == '.';
  }

  /** One local composite: unreadable until its manifest is known, then whatever that manifest says. */
  lemma LocalCompositeOpens(env: Env, tail: Step, cache: Step, big: Index)
    requires tail.uses != "" && |ActionOf(tail.uses)| > 0 && ActionOf(tail.uses)[0] == '.'
    requires cache.uses != "" && ActionOf(cache.uses) == CACHE_ACTION
    requires tail.uses in big && big[tail.uses] == Some(Manifest(true, [cache]))
    ensures StepVerdict(env, map[], tail, None, 0) == Unknown
    ensures StepVerdict(env, big, tail, None, 0) == Cached
  {
    LocalPathIsNotModelled(tail, env);
    hide ActionOf, SetupCacheState;
    assert StepVerdict(env, big, cache, None, 1) == Cached;
    assert Walk(env, big, [cache], None, 1, false, false) == Cached;
  }

  lemma SingleWalk(env: Env, index: Index, step: Step)
    ensures Walk(env, index, [step], None, 0, false, false) == StepVerdict(env, index, step, None, 0)
  {
    hide StepVerdict;
    var v := StepVerdict(env, index, step, None, 0);
    assert [step][1..] == [];
    assert Walk(env, index, [], NextCheckout(step, None), 0, v == Unknown, v == Disabled) ==
           Conclude(v == Unknown, v == Disabled);
  }

  lemma InstallThenTail(install: Step, tail: Step)
    requires install.index == 0 && tail.index == 1
    ensures Ahead([install, tail], 0) == [] && Behind([install, tail], 0) == [tail]
  {
    assert [install, tail][1..] == [tail] && [tail][1..] == [];
    assert Ahead([tail], 0) == [] && Behind([tail], 0) == [tail];
  }

  lemma TailTurnsCached(env: Env, install: Step, tail: Step, cache: Step, big: Index)
    requires install.index == 0 && tail.index == 1
    requires tail.uses != "" && |ActionOf(tail.uses)| > 0 && ActionOf(tail.uses)[0] == '.'
    requires cache.uses != "" && ActionOf(cache.uses) == CACHE_ACTION
    requires tail.uses in big && big[tail.uses] == Some(Manifest(true, [cache]))
    ensures JobState(env, map[], [install, tail], 0) == Uncached
    ensures JobState(env, big, [install, tail], 0) == Cached
  {
    InstallThenTail(install, tail);
    LocalCompositeOpens(env, tail, cache, big);
    SingleWalk(env, map[], tail);
    SingleWalk(env, big, tail);
    hide StepVerdict, Ahead, Behind, ActionOf;
    assert LastCheckout([], None) == None;
  }

  /** It happens: a composite behind the install turns out to hold a cache step. */
  lemma UncachedCanTurnCached(env: Env)
    ensures var steps := [Step(0, "", map[], None, []), Step(1, "./setup", map[], None, [])];
            var big := map["./setup" := Some(Manifest(true, [Step(0, "actions/cache@v4", map[], None, [])]))];
            JobState(env, map[], steps, 0) == Uncached && JobState(env, big, steps, 0) == Cached
  {
    SetupReference();
    CacheReference();
    hide *;
    TailTurnsCached(env, Step(0, "", map[], None, []), Step(1, "./setup", map[], None, []),
                    Step(0, "actions/cache@v4", map[], None, []),
                    map["./setup" := Some(Manifest(true, [Step(0, "actions/cache@v4", map[], None, [])]))]);
  }

  lemma SetupReference()
    ensures ActionOf("./setup") == "./setup"
  {
    assert "./setup" + "" == "./setup";
    ActionIsVersionIndependent("./setup", "");
  }

  lemma CacheReference()
    ensures ActionOf("actions/cache@v4") == CACHE_ACTION
  {
    assert CACHE_ACTION + "@v4" == "actions/cache@v4";
    ActionIsVersionIndependent(CACHE_ACTION, "@v4");
  }
}
