/** When the delta-poll cursor may advance (src/cadence/ingest.py:216-326): any number of ingest passes over one
    repository, interleaved with each other and with webhooks, each free to die between any two steps. */
module Ingest {
  import opened Common

  type Etag = string

  /** `attempts` is `run_attempt`: each attempt has jobs of its own to fetch. */
  datatype Run = Run(id: nat, attempts: nat)

  datatype Job = Job(id: nat, steps: seq<nat>)

  /** Committed rows, by key: upserts only ever add keys. */
  datatype Store = Store(etag: Option<Etag>, runs: set<nat>, jobs: set<nat>, steps: set<(nat, nat)>)

  /** One run's job fetch: one result per attempt, in request order. */
  datatype Task =
    | Fetching(got: seq<seq<Job>>)
    | Fetched(got: seq<seq<Job>>)
    | Swallowed
    | RateLimited

  datatype Phase = ReadingEtag | Paging(page: nat) | UpsertingRuns | FetchingJobs | StoringEtag
                 | Finished | Unmodified | Dead

  /** `jobs` and `steps` are written but not yet committed; `absorbed` are the tasks already awaited. */
  datatype Pass = Pass(phase: Phase, limit: nat, fetchJobs: bool, sentEtag: Option<Etag>, newEtag: Option<Etag>,
                       collected: seq<Run>, tasks: seq<Task>, absorbed: set<nat>,
                       jobs: set<nat>, steps: set<(nat, nat)>)

  datatype State = State(store: Store, passes: map<nat, Pass>)

  datatype Step =
    | Start(p: nat, limit: nat, fetchJobs: bool)
    | ReadEtag(p: nat)
    | FetchPage(p: nat, runs: seq<Run>, etag: Option<Etag>, notModified: bool)
    | StopPaging(p: nat)
    | CommitRuns(p: nat)
    | FetchAttempt(p: nat, i: nat, jobs: seq<Job>)
    | FetchFails(p: nat, i: nat, rateLimited: bool)
    | Absorb(p: nat, i: nat)
    | CommitJobs(p: nat)
    | StoreEtag(p: nat)
    | Die(p: nat)
    | Webhook(newRuns: set<nat>, newJobs: set<nat>, newSteps: set<(nat, nat)>)

  // ---------------------------------------------------------------- the transitions

  /** The latest attempt plus every earlier one. */
  function Needed(r: Run): nat { if r.attempts > 1 then r.attempts else 1 }

  function JobIds(parts: seq<seq<Job>>): set<nat> {
    set k, j | 0 <= k < |parts| && 0 <= j < |parts[k]| :: parts[k][j].id
  }

  function StepKeys(parts: seq<seq<Job>>): set<(nat, nat)> {
    set k, j, n | 0 <= k < |parts| && 0 <= j < |parts[k]| && 0 <= n < |parts[k][j].steps| ::
      (parts[k][j].id, parts[k][j].steps[n])
  }

  function RunIds(runs: seq<Run>): set<nat> { set k | 0 <= k < |runs| :: runs[k].id }

  predicate In(s: State, p: nat, phase: Phase) { p in s.passes && s.passes[p].phase == phase }

  predicate Unresolved(s: State, p: nat, i: nat) {
    In(s, p, FetchingJobs) && i < |s.passes[p].tasks| && s.passes[p].tasks[i].Fetching?
  }

  predicate Enabled(s: State, step: Step) {
    match step
    case Start(p, _, _) => p !in s.passes
    case ReadEtag(p) => In(s, p, ReadingEtag)
    case FetchPage(p, _, _, _) => p in s.passes && s.passes[p].phase.Paging? && |s.passes[p].collected| < s.passes[p].limit
    case StopPaging(p) => p in s.passes && s.passes[p].phase.Paging? && |s.passes[p].collected| >= s.passes[p].limit
    case CommitRuns(p) => In(s, p, UpsertingRuns)
    case FetchAttempt(p, i, _) => Unresolved(s, p, i)
    case FetchFails(p, i, _) => Unresolved(s, p, i)
    case Absorb(p, i) => In(s, p, FetchingJobs) && i < |s.passes[p].tasks| && i !in s.passes[p].absorbed
                         && (s.passes[p].tasks[i].Fetched? || s.passes[p].tasks[i].Swallowed?)
    case CommitJobs(p) => In(s, p, FetchingJobs) && forall i | 0 <= i < |s.passes[p].tasks| :: i in s.passes[p].absorbed
    case StoreEtag(p) => In(s, p, StoringEtag)
    case Die(p) => p in s.passes && !s.passes[p].phase.Finished? && !s.passes[p].phase.Unmodified?
    case Webhook(_, _, _) => true
  }

  /** What the step does to the pass that takes it. */
  function PassAfter(s: State, step: Step): Pass
    requires Enabled(s, step) && !step.Webhook? && !step.Start?
  {
    var p := s.passes[step.p];
    match step
    case ReadEtag(_) => p.(sentEtag := s.store.etag, phase := Paging(1))
    case FetchPage(_, runs, etag, notModified) =>
      if notModified then p.(phase := Unmodified)
      else
        var q := if p.phase.page == 1 then p.(newEtag := etag) else p;
        if runs == [] then q.(phase := UpsertingRuns)
        else q.(collected := p.collected + runs, phase := Paging(p.phase.page + 1))
    case StopPaging(_) => p.(collected := p.collected[..p.limit], phase := UpsertingRuns)
    case CommitRuns(_) =>
      if p.fetchJobs then p.(phase := FetchingJobs, tasks := seq(|p.collected|, i => Fetching([])))
      else p.(phase := StoringEtag)
    case FetchAttempt(_, i, jobs) =>
      var got := p.tasks[i].got + [jobs];
      var more := i < |p.collected| && |got| < Needed(p.collected[i]);
      p.(tasks := p.tasks[i := if more then Fetching(got) else Fetched(got)])
    case FetchFails(_, i, rateLimited) =>
      p.(tasks := p.tasks[i := if rateLimited then RateLimited else Swallowed])
    case Absorb(_, i) =>
      var parts := if p.tasks[i].Fetched? then p.tasks[i].got else [];
      p.(absorbed := p.absorbed + {i}, jobs := p.jobs + JobIds(parts), steps := p.steps + StepKeys(parts))
    case CommitJobs(_) => p.(phase := StoringEtag)
    case StoreEtag(_) => p.(phase := Finished)
    case Die(_) => p.(phase := Dead)
  }

  /** What the step commits. */
  function StoreAfter(s: State, step: Step): Store
    requires Enabled(s, step)
  {
    match step
    case CommitRuns(p) => s.store.(runs := s.store.runs + RunIds(s.passes[p].collected))
    case CommitJobs(p) =>
      s.store.(jobs := s.store.jobs + s.passes[p].jobs, steps := s.store.steps + s.passes[p].steps)
    case StoreEtag(p) => if s.passes[p].newEtag.Some? then s.store.(etag := s.passes[p].newEtag) else s.store
    case Webhook(runs, jobs, steps) =>
      s.store.(runs := s.store.runs + runs, jobs := s.store.jobs + jobs, steps := s.store.steps + steps)
    case _ => s.store
  }

  function Next(s: State, step: Step): State
    requires Enabled(s, step)
  {
    match step
    case Webhook(_, _, _) => s.(store := StoreAfter(s, step))
    case Start(p, limit, fetchJobs) =>
      s.(passes := s.passes[p := Pass(ReadingEtag, limit, fetchJobs, None, None, [], [], {}, {}, {})])
    case _ => State(StoreAfter(s, step), s.passes[step.p := PassAfter(s, step)])
  }

  // ---------------------------------------------------------------- what must be durable

  ghost predicate Grows(a: Store, b: Store) {
    a.runs <= b.runs && a.jobs <= b.jobs && a.steps <= b.steps
  }

  /** Every job of every attempt, with all its steps. */
  ghost predicate JobsDurable(store: Store, parts: seq<seq<Job>>) {
    JobIds(parts) <= store.jobs && StepKeys(parts) <= store.steps
  }

  /** All attempts of run `i` were fetched and are durable, or the fetch ended in an error that was swallowed. */
  ghost predicate JobsSafe(store: Store, p: Pass, i: nat) {
    && i < |p.collected| && i < |p.tasks|
    && (p.tasks[i].Swallowed? ||
        (&& p.tasks[i].Fetched? && JobsDurable(store, p.tasks[i].got)
         && |p.tasks[i].got| == (if p.collected[i].attempts > 1 then p.collected[i].attempts else 1)))
  }

  /** A run of the window is safe: its row is durable, and so are its jobs when the pass fetches jobs at all. */
  ghost predicate RunSafe(store: Store, p: Pass, i: nat) {
    i < |p.collected| && p.collected[i].id in store.runs && (p.fetchJobs ==> JobsSafe(store, p, i))
  }

  ghost predicate WindowSafe(store: Store, p: Pass) {
    forall i | 0 <= i < |p.collected| :: RunSafe(store, p, i)
  }

  /** Every run of the window is durable with its jobs and steps, save the swallowed errors: no flag is asked. */
  ghost predicate WindowDurable(store: Store, p: Pass) {
    forall i | 0 <= i < |p.collected| :: p.collected[i].id in store.runs && JobsSafe(store, p, i)
  }

  /** Some finished pass saw this ETag, and its whole window is safe. */
  ghost predicate Covered(s: State, e: Etag) {
    exists q :: q in s.passes && s.passes[q].phase.Finished? && s.passes[q].newEtag == Some(e)
                && WindowSafe(s.store, s.passes[q])
  }

  // ---------------------------------------------------------------- the invariant

  ghost predicate TaskOk(p: Pass, i: nat)
    requires i < |p.tasks| && i < |p.collected|
  {
    var t := p.tasks[i];
    && (t.Fetching? ==> |t.got| < Needed(p.collected[i]))
    && (t.Fetched? ==> |t.got| == Needed(p.collected[i]))
    && (i in p.absorbed ==> t.Swallowed? || (t.Fetched? && JobIds(t.got) <= p.jobs && StepKeys(t.got) <= p.steps))
  }

  ghost predicate PassOk(store: Store, p: Pass) {
    && (p.phase.FetchingJobs? ==>
          && p.fetchJobs && RunIds(p.collected) <= store.runs && |p.tasks| == |p.collected|
          && forall i | 0 <= i < |p.tasks| :: TaskOk(p, i))
    && (p.phase.StoringEtag? || p.phase.Finished? ==> WindowSafe(store, p))
    && (p.phase.ReadingEtag? || p.phase.Paging? || p.phase.UpsertingRuns? ==>
          p.tasks == [] && p.absorbed == {})
  }

  ghost predicate Inv(s: State) {
    && (forall p | p in s.passes :: PassOk(s.store, s.passes[p]))
    && (forall e | s.store.etag == Some(e) :: Covered(s, e))
    && (forall p, e | p in s.passes && s.passes[p].sentEtag == Some(e) :: Covered(s, e))
  }

  /** What the system assumes: webhooks arrive and unfinished passes die at any time; pages are requested while fewer
      runs than the limit were collected. */
  lemma NothingElseIsAssumed(s: State)
    ensures forall r, j, k :: Enabled(s, Webhook(r, j, k))
    ensures forall p | p in s.passes :: Enabled(s, Die(p)) <==> s.passes[p].phase != Finished && s.passes[p].phase != Unmodified
    ensures forall p, runs, etag, same | p in s.passes && s.passes[p].phase.Paging? ::
              Enabled(s, FetchPage(p, runs, etag, same)) <==> |s.passes[p].collected| < s.passes[p].limit
    ensures forall p | p in s.passes && s.passes[p].phase.Paging? ::
              Enabled(s, StopPaging(p)) <==> |s.passes[p].collected| >= s.passes[p].limit
  {
  }

  /** Fetches end as they like, and exactly the settled tasks can be awaited. */
  lemma TasksAreFree(s: State, p: nat, i: nat)
    requires p in s.passes && s.passes[p].phase == FetchingJobs && i < |s.passes[p].tasks|
    ensures s.passes[p].tasks[i].Fetching? ==>
              (forall jobs :: Enabled(s, FetchAttempt(p, i, jobs))) && forall hard :: Enabled(s, FetchFails(p, i, hard))
    ensures i !in s.passes[p].absorbed ==>
              (Enabled(s, Absorb(p, i)) <==> s.passes[p].tasks[i].Fetched? || s.passes[p].tasks[i] == Swallowed)
  {
  }

  /** What each step commits: only the three commits of a pass and webhooks write, and they only add. */
  lemma StepsCommit(s: State, step: Step)
    requires Enabled(s, step)
    ensures var t := Next(s, step).store;
            && (step.Webhook? ==>
                  t == Store(s.store.etag, s.store.runs + step.newRuns, s.store.jobs + step.newJobs, s.store.steps + step.newSteps)
                  && Next(s, step).passes == s.passes)
            && (step.CommitRuns? ==>
                  && t.etag == s.store.etag && t.jobs == s.store.jobs && t.steps == s.store.steps
                  && forall id :: id in t.runs <==> id in s.store.runs || exists k :: 0 <= k < |s.passes[step.p].collected|
                                                                            && s.passes[step.p].collected[k].id == id)
            && (step.CommitJobs? ==>
                  t == Store(s.store.etag, s.store.runs, s.store.jobs + s.passes[step.p].jobs,
                             s.store.steps + s.passes[step.p].steps))
            && (step.StoreEtag? ==>
                  t == Store(if s.passes[step.p].newEtag.Some? then s.passes[step.p].newEtag else s.store.etag,
                             s.store.runs, s.store.jobs, s.store.steps))
            && (!step.Webhook? && !step.CommitRuns? && !step.CommitJobs? && !step.StoreEtag? ==> t == s.store)
  {
  }

  /** What durable means: every job of every attempt that was fetched, and every step of these jobs. */
  lemma DurableMeans(store: Store, parts: seq<seq<Job>>)
    ensures JobsDurable(store, parts) <==>
              forall k, j | 0 <= k < |parts| && 0 <= j < |parts[k]| ::
                parts[k][j].id in store.jobs
                && forall n | 0 <= n < |parts[k][j].steps| :: (parts[k][j].id, parts[k][j].steps[n]) in store.steps
  {
    if JobsDurable(store, parts) {
      forall k, j | 0 <= k < |parts| && 0 <= j < |parts[k]|
        ensures parts[k][j].id in store.jobs
        ensures forall n | 0 <= n < |parts[k][j].steps| :: (parts[k][j].id, parts[k][j].steps[n]) in store.steps
      {
        assert parts[k][j].id in JobIds(parts);
        forall n | 0 <= n < |parts[k][j].steps| ensures (parts[k][j].id, parts[k][j].steps[n]) in store.steps {
          assert (parts[k][j].id, parts[k][j].steps[n]) in StepKeys(parts);
        }
      }
    }
  }

  lemma StoreGrows(s: State, step: Step)
    requires Enabled(s, step)
    ensures Grows(s.store, StoreAfter(s, step))
  {
  }

  lemma SafeSurvives(a: Store, b: Store, p: Pass)
    requires Grows(a, b) && WindowSafe(a, p)
    ensures WindowSafe(b, p)
  {
    forall i | 0 <= i < |p.collected| ensures RunSafe(b, p, i) { assert RunSafe(a, p, i); }
  }

  lemma OkSurvives(a: Store, b: Store, p: Pass)
    requires Grows(a, b) && PassOk(a, p)
    ensures PassOk(b, p)
  {
    if p.phase.StoringEtag? || p.phase.Finished? { SafeSurvives(a, b, p); }
  }

  /** Coverage outlives every later step: rows are never deleted and finished passes stay finished. */
  lemma CoveredSurvives(s: State, step: Step, e: Etag)
    requires Enabled(s, step) && Covered(s, e)
    ensures Covered(Next(s, step), e)
  {
    var q :| q in s.passes && s.passes[q].phase.Finished? && s.passes[q].newEtag == Some(e)
             && WindowSafe(s.store, s.passes[q]);
    var t := Next(s, step);
    StoreGrows(s, step);
    SafeSurvives(s.store, t.store, s.passes[q]);
    assert t.passes[q] == s.passes[q];
  }

  lemma CommitRunsIsOk(s: State, p: nat)
    requires Enabled(s, CommitRuns(p)) && PassOk(s.store, s.passes[p])
    ensures PassOk(StoreAfter(s, CommitRuns(p)), PassAfter(s, CommitRuns(p)))
  {
    var a, q, b := s.passes[p], PassAfter(s, CommitRuns(p)), StoreAfter(s, CommitRuns(p));
    if a.fetchJobs {
      forall i | 0 <= i < |q.tasks| ensures TaskOk(q, i) { assert q.tasks[i] == Fetching([]); }
    } else {
      forall i | 0 <= i < |q.collected| ensures RunSafe(b, q, i) { assert q.collected[i].id in RunIds(a.collected); }
    }
  }

  lemma TaskStepIsOk(s: State, step: Step)
    requires step.FetchAttempt? || step.FetchFails? || step.Absorb?
    requires Enabled(s, step) && PassOk(s.store, s.passes[step.p])
    requires forall i | i in s.passes[step.p].absorbed :: i < |s.passes[step.p].tasks| ==> !s.passes[step.p].tasks[i].Fetching?
    ensures PassOk(s.store, PassAfter(s, step))
  {
    var a, q := s.passes[step.p], PassAfter(s, step);
    forall i | 0 <= i < |q.tasks| ensures TaskOk(q, i) {
      assert TaskOk(a, i);
    }
  }

  lemma CommitJobsIsOk(s: State, p: nat)
    requires Enabled(s, CommitJobs(p)) && PassOk(s.store, s.passes[p])
    ensures PassOk(StoreAfter(s, CommitJobs(p)), PassAfter(s, CommitJobs(p)))
  {
    var a, q, b := s.passes[p], PassAfter(s, CommitJobs(p)), StoreAfter(s, CommitJobs(p));
    forall i | 0 <= i < |q.collected| ensures RunSafe(b, q, i) {
      assert TaskOk(a, i) && i in a.absorbed;
      assert a.collected[i].id in RunIds(a.collected);
    }
  }

  /** The moved pass keeps its own invariant; the three commits are where something has to be shown. */
  lemma MovedPassIsOk(s: State, step: Step)
    requires Enabled(s, step) && !step.Webhook? && !step.Start? && PassOk(s.store, s.passes[step.p])
    ensures PassOk(StoreAfter(s, step), PassAfter(s, step))
  {
    var a, q, b := s.passes[step.p], PassAfter(s, step), StoreAfter(s, step);
    match step
    case CommitRuns(p) => CommitRunsIsOk(s, p);
    case FetchAttempt(p, i, _) => AbsorbedAreSettled(s.store, a); TaskStepIsOk(s, step);
    case FetchFails(p, i, _) => AbsorbedAreSettled(s.store, a); TaskStepIsOk(s, step);
    case Absorb(p, i) => AbsorbedAreSettled(s.store, a); TaskStepIsOk(s, step);
    case CommitJobs(p) => CommitJobsIsOk(s, p);
    case StoreEtag(p) =>
      forall i | 0 <= i < |q.collected| ensures RunSafe(b, q, i) { assert RunSafe(s.store, a, i); }
    case _ =>
  }

  lemma AbsorbedAreSettled(store: Store, p: Pass)
    requires PassOk(store, p) && p.phase.FetchingJobs?
    ensures forall i | i in p.absorbed && i < |p.tasks| :: !p.tasks[i].Fetching?
  {
    forall i | i in p.absorbed && i < |p.tasks| ensures !p.tasks[i].Fetching? { assert TaskOk(p, i); }
  }

  lemma InvHolds(s: State, step: Step)
    requires Inv(s) && Enabled(s, step)
    ensures Inv(Next(s, step))
  {
    var t := Next(s, step);
    StoreGrows(s, step);
    PassesStayOk(s, step);
    forall e | t.store.etag == Some(e) ensures Covered(t, e) { EtagIsCovered(s, step, e); }
    forall p, e | p in t.passes && t.passes[p].sentEtag == Some(e) ensures Covered(t, e) {
      SentIsCovered(s, step, p, e);
    }
  }

  lemma PassesStayOk(s: State, step: Step)
    requires Inv(s) && Enabled(s, step)
    ensures forall p | p in Next(s, step).passes :: PassOk(Next(s, step).store, Next(s, step).passes[p])
  {
    var t := Next(s, step);
    StoreGrows(s, step);
    forall p | p in t.passes ensures PassOk(t.store, t.passes[p]) {
      if p in s.passes && t.passes[p] == s.passes[p] {
        OkSurvives(s.store, t.store, s.passes[p]);
      } else if !step.Start? {
        MovedPassIsOk(s, step);
      }
    }
  }

  lemma EtagIsCovered(s: State, step: Step, e: Etag)
    requires Inv(s) && Enabled(s, step) && Next(s, step).store.etag == Some(e)
    ensures Covered(Next(s, step), e)
  {
    var t := Next(s, step);
    if s.store.etag == Some(e) {
      CoveredSurvives(s, step, e);
    } else {
      assert step.StoreEtag?;
      MovedPassIsOk(s, step);
      assert t.passes[step.p].phase.Finished? && t.passes[step.p].newEtag == Some(e);
    }
  }

  lemma SentIsCovered(s: State, step: Step, p: nat, e: Etag)
    requires Inv(s) && Enabled(s, step) && p in Next(s, step).passes
    requires Next(s, step).passes[p].sentEtag == Some(e)
    ensures Covered(Next(s, step), e)
  {
    assert p in s.passes && (s.passes[p].sentEtag == Some(e) || s.store.etag == Some(e));
    CoveredSurvives(s, step, e);
  }

  // ---------------------------------------------------------------- runs

  ghost predicate Init(s: State) {
    s.passes == map[] && s.store.etag == None
  }

  ghost predicate IsRun(trace: seq<State>, steps: seq<Step>) {
    && |trace| == |steps| + 1 && Init(trace[0])
    && forall i | 0 <= i < |steps| :: Enabled(trace[i], steps[i]) && trace[i + 1] == Next(trace[i], steps[i])
  }

  lemma {:induction false} RunKeepsInv(trace: seq<State>, steps: seq<Step>, i: nat)
    requires IsRun(trace, steps) && i < |trace|
    ensures Inv(trace[i])
  {
    if i > 0 {
      RunKeepsInv(trace, steps, i - 1);
      InvHolds(trace[i - 1], steps[i - 1]);
    }
  }

  /** No pass of the run was started with job fetching switched off. */
  ghost predicate FetchesJobs(steps: seq<Step>, n: nat) {
    forall k | 0 <= k < n && k < |steps| && steps[k].Start? :: steps[k].fetchJobs
  }

  lemma {:induction false} PassesFetchJobs(trace: seq<State>, steps: seq<Step>, i: nat, p: nat)
    requires IsRun(trace, steps) && i < |trace| && FetchesJobs(steps, i) && p in trace[i].passes
    ensures trace[i].passes[p].fetchJobs
    decreases i
  {
    if i > 0 {
      var s, step := trace[i - 1], steps[i - 1];
      assert trace[i] == Next(s, step) && Enabled(s, step);
      if p in s.passes { PassesFetchJobs(trace, steps, i - 1, p); }
    }
  }

  /** Whatever passes were started: the stored ETag comes from a finished pass whose window is safe, flag included. */
  lemma CursorSource(trace: seq<State>, steps: seq<Step>, i: nat, e: Etag) returns (q: nat)
    requires IsRun(trace, steps) && i < |trace|
    requires trace[i].store.etag == Some(e) || exists p :: p in trace[i].passes && trace[i].passes[p].sentEtag == Some(e)
    ensures q in trace[i].passes && trace[i].passes[q].phase.Finished? && trace[i].passes[q].newEtag == Some(e)
    ensures WindowSafe(trace[i].store, trace[i].passes[q])
  {
    RunKeepsInv(trace, steps, i);
    assert Covered(trace[i], e);
    q :| q in trace[i].passes && trace[i].passes[q].phase.Finished? && trace[i].passes[q].newEtag == Some(e)
         && WindowSafe(trace[i].store, trace[i].passes[q]);
  }

  /** Every finished pass of every run keeps its window safe, flag included. */
  lemma FinishedIsSafe(trace: seq<State>, steps: seq<Step>, i: nat, q: nat)
    requires IsRun(trace, steps) && i < |trace| && q in trace[i].passes && trace[i].passes[q].phase.Finished?
    ensures WindowSafe(trace[i].store, trace[i].passes[q])
  {
    RunKeepsInv(trace, steps, i);
    assert PassOk(trace[i].store, trace[i].passes[q]);
  }

  /** Cursor safety: with job fetching on, at every reachable state, the windows of all finished passes are durable
      with their jobs and steps, save swallowed errors; and a stored ETag is the ETag of such a pass. */
  lemma CursorSafety(trace: seq<State>, steps: seq<Step>, i: nat)
    requires IsRun(trace, steps) && i < |trace| && FetchesJobs(steps, i)
    ensures forall q | q in trace[i].passes && trace[i].passes[q].phase.Finished? ::
              WindowDurable(trace[i].store, trace[i].passes[q])
    ensures forall e | trace[i].store.etag == Some(e) ::
              exists q :: q in trace[i].passes && trace[i].passes[q].phase.Finished? && trace[i].passes[q].newEtag == Some(e)
  {
    forall q | q in trace[i].passes && trace[i].passes[q].phase.Finished?
      ensures WindowDurable(trace[i].store, trace[i].passes[q])
    {
      FinishedIsSafe(trace, steps, i, q);
      PassesFetchJobs(trace, steps, i, q);
      SafeIsDurable(trace[i].store, trace[i].passes[q]);
    }
    if trace[i].store.etag.Some? { var q := CursorSource(trace, steps, i, trace[i].store.etag.value); }
  }

  lemma SafeIsDurable(store: Store, p: Pass)
    requires WindowSafe(store, p) && p.fetchJobs
    ensures WindowDurable(store, p)
  {
    forall i | 0 <= i < |p.collected| ensures p.collected[i].id in store.runs && JobsSafe(store, p, i) {
      assert RunSafe(store, p, i);
    }
  }

  // ---------------------------------------------------------------- what a 304 leaves behind

  /** The first `n` runs of what the provider lists. */
  function Take(listing: seq<Run>, n: nat): seq<Run> { if n <= |listing| then listing[..n] else listing }

  /** Run `i` of the listing is as durable as an asking pass wants it, by what pass `q` fetched for it. */
  ghost predicate AskedFor(store: Store, listing: seq<Run>, wantsJobs: bool, q: Pass, i: nat) {
    i < |listing| && listing[i].id in store.runs && (wantsJobs ==> JobsSafe(store, q, i))
  }

  /** In any run: a pass that a 304 ended early has its window as it wants it, when some finished pass with that ETag
      fetched jobs if this one does, and looked at least as far down the listing the ETag names. */
  lemma NotModifiedIsSafe(trace: seq<State>, steps: seq<Step>, i: nat, p: nat, q: nat, e: Etag, listing: seq<Run>)
    requires IsRun(trace, steps) && i < |trace| && p in trace[i].passes && q in trace[i].passes
    requires trace[i].passes[p].phase.Unmodified? && trace[i].passes[p].sentEtag == Some(e)
    requires trace[i].passes[q].phase.Finished? && trace[i].passes[q].newEtag == Some(e)
    requires trace[i].passes[q].collected == Take(listing, trace[i].passes[q].limit)
    requires trace[i].passes[p].fetchJobs ==> trace[i].passes[q].fetchJobs
    requires trace[i].passes[p].limit <= trace[i].passes[q].limit || |listing| <= trace[i].passes[q].limit
    ensures var asking, stored := trace[i].passes[p], trace[i].passes[q];
            forall k | 0 <= k < |Take(listing, asking.limit)| ::
              AskedFor(trace[i].store, listing, asking.fetchJobs, stored, k)
  {
    FinishedIsSafe(trace, steps, i, q);
    var s, asking, stored := trace[i], trace[i].passes[p], trace[i].passes[q];
    forall k | 0 <= k < |Take(listing, asking.limit)| ensures AskedFor(s.store, listing, asking.fetchJobs, stored, k) {
      assert RunSafe(s.store, stored, k);
      assert stored.collected[k] == listing[k];
    }
  }

  // ---------------------------------------------------------------- building runs

  ghost predicate Valid(s: State, steps: seq<Step>)
    decreases |steps|
  {
    steps == [] || (Enabled(s, steps[0]) && Valid(Next(s, steps[0]), steps[1..]))
  }

  ghost function Reached(s: State, steps: seq<Step>): State
    requires Valid(s, steps)
    decreases |steps|
  {
    if steps == [] then s else Reached(Next(s, steps[0]), steps[1..])
  }

  ghost function Trace(s: State, steps: seq<Step>): (trace: seq<State>)
    requires Valid(s, steps)
    ensures |trace| == |steps| + 1 && trace[0] == s && trace[|steps|] == Reached(s, steps)
    ensures forall i | 0 <= i < |steps| :: Enabled(trace[i], steps[i]) && trace[i + 1] == Next(trace[i], steps[i])
    decreases |steps|
  {
    if steps == [] then [s] else [s] + Trace(Next(s, steps[0]), steps[1..])
  }

  lemma {:induction false} ThenReached(s: State, a: seq<Step>, b: seq<Step>)
    requires Valid(s, a) && Valid(Reached(s, a), b)
    ensures Valid(s, a + b) && Reached(s, a + b) == Reached(Reached(s, a), b)
    decreases |a|
  {
    if a == [] {
      assert a + b == b;
    } else {
      assert (a + b)[1..] == a[1..] + b && (a + b)[0] == a[0];
      hide Enabled, Next;
      ThenReached(Next(s, a[0]), a[1..], b);
    }
  }
}
