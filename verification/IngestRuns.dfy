/** Passes of `IngestPass` as runs of `Ingest`, and what a 304 costs a pass that wants more than the ETag stands for
    (src/cadence/ingest.py:216-326). */
module IngestRuns {
  import opened Common
  import opened Ingest
  import opened IngestPass

  /** The steps take pass `p` to `q` and the store to `store`; every other pass stays as it is. */
  ghost predicate Leads(s: State, p: nat, steps: seq<Step>, store: Store, q: Pass) {
    Valid(s, steps) && Reached(s, steps) == Moved(s, p, store, q)
  }

  function Moved(s: State, p: nat, store: Store, q: Pass): State { State(store, s.passes[p := q]) }

  lemma OneStep(s: State, p: nat, step: Step)
    requires Enabled(s, step) && !step.Webhook? && !step.Start? && step.p == p
    ensures Leads(s, p, [step], StoreAfter(s, step), PassAfter(s, step))
  {
    assert [step][1..] == [];
    hide Enabled, StoreAfter, PassAfter;
    assert Valid(Next(s, step), []);
    assert Reached(s, [step]) == Next(s, step);
  }

  lemma Chain(s: State, p: nat, a: seq<Step>, store: Store, q: Pass, b: seq<Step>, store': Store, q': Pass)
    requires Leads(s, p, a, store, q) && Leads(Moved(s, p, store, q), p, b, store', q')
    ensures Leads(s, p, a + b, store', q')
  {
    ThenReached(s, a, b);
    assert s.passes[p := q][p := q'] == s.passes[p := q'];
    hide Valid, Reached;
  }

  // ---------------------------------------------------------------- the stages of a pass

  lemma {:induction false} PagesLead(s: State, p: nat, pages: nat -> Reply, page: nat) returns (steps: seq<Step>, q: Pass)
    requires p in s.passes && s.passes[p].phase == Paging(page) && page >= 1
    requires page == 1 ==> s.passes[p].collected == [] && s.passes[p].newEtag == None
    ensures Leads(s, p, steps, s.store, q)
    ensures var a := s.passes[p];
            && q.limit == a.limit && q.fetchJobs == a.fetchJobs && q.sentEtag == a.sentEtag
            && match Gather(pages, page, a.collected, a.limit)
               case Unchanged => q.phase == Unmodified
               case Broken => q.phase == Dead
               case Complete(runs) =>
                 q == a.(phase := UpsertingRuns, collected := runs,
                         newEtag := if page == 1 then FirstEtag(pages, a.limit) else a.newEtag)
    decreases if |s.passes[p].collected| < s.passes[p].limit then s.passes[p].limit - |s.passes[p].collected| else 0
  {
    var a := s.passes[p];
    var step :=
      if |a.collected| >= a.limit then StopPaging(p)
      else match pages(page)
           case NotModified => FetchPage(p, [], None, true)
           case Raises => Die(p)
           case Page(runs, etag) => FetchPage(p, runs, etag, false);
    OneStep(s, p, step);
    steps, q := [step], PassAfter(s, step);
    if |a.collected| < a.limit && pages(page).Page? && pages(page).runs != [] {
      var rest, q' := PagesLead(Moved(s, p, s.store, q), p, pages, page + 1);
      Chain(s, p, steps, s.store, q, rest, s.store, q');
      steps, q := steps + rest, q';
      hide *;
    }
  }

  lemma {:induction false} TaskLeads(s: State, p: nat, i: nat, fetch: (nat, nat) -> Fetch) returns (steps: seq<Step>)
    requires In(s, p, FetchingJobs) && i < |s.passes[p].tasks| == |s.passes[p].collected|
    requires s.passes[p].tasks[i].Fetching? && |s.passes[p].tasks[i].got| < Needed(s.passes[p].collected[i])
    ensures var a := s.passes[p];
            Leads(s, p, steps, s.store, a.(tasks := a.tasks[i := TaskFrom(fetch, a.collected[i], a.tasks[i].got)]))
    decreases Needed(s.passes[p].collected[i]) - |s.passes[p].tasks[i].got|
  {
    var a := s.passes[p];
    var got, r := a.tasks[i].got, a.collected[i];
    var step := match fetch(r.id, |got|)
                case Got(jobs) => FetchAttempt(p, i, jobs)
                case Limited => FetchFails(p, i, true)
                case Errs => FetchFails(p, i, false);
    OneStep(s, p, step);
    steps := [step];
    var q := PassAfter(s, step);
    if q.tasks[i].Fetching? {
      var rest := TaskLeads(Moved(s, p, s.store, q), p, i, fetch);
      assert a.tasks[i := q.tasks[i]][i := TaskFrom(fetch, r, q.tasks[i].got)] == a.tasks[i := TaskFrom(fetch, r, got)];
      Chain(s, p, steps, s.store, q, rest, s.store, q.(tasks := q.tasks[i := TaskFrom(fetch, r, q.tasks[i].got)]));
      steps := steps + rest;
    }
  }

  ghost predicate HalfFetched(a: Pass, fetch: (nat, nat) -> Fetch, n: nat) {
    && a.phase == FetchingJobs && n <= |a.tasks| == |a.collected|
    && forall k | 0 <= k < |a.tasks| :: a.tasks[k] == if k < n then TaskOf(fetch, a.collected[k]) else Fetching([])
  }

  lemma {:induction false} TasksLead(s: State, p: nat, n: nat, fetch: (nat, nat) -> Fetch) returns (steps: seq<Step>)
    requires p in s.passes && HalfFetched(s.passes[p], fetch, n)
    ensures Leads(s, p, steps, s.store, s.passes[p].(tasks := TasksOf(fetch, s.passes[p].collected)))
    decreases |s.passes[p].tasks| - n
  {
    var a := s.passes[p];
    var done := a.(tasks := TasksOf(fetch, a.collected));
    steps := [];
    if n == |a.tasks| {
      assert a.tasks == TasksOf(fetch, a.collected);
      assert s.passes[p := done] == s.passes;
    } else {
      steps := TaskLeads(s, p, n, fetch);
      var q := a.(tasks := a.tasks[n := TaskOf(fetch, a.collected[n])]);
      hide TaskOf;
      var rest := TasksLead(Moved(s, p, s.store, q), p, n + 1, fetch);
      assert q.(tasks := done.tasks) == done;
      Chain(s, p, steps, s.store, q, rest, s.store, done);
      steps := steps + rest;
    }
  }

  /** The first `n` tasks have been awaited. */
  ghost predicate HalfAbsorbed(a: Pass, n: nat) {
    && a.phase == FetchingJobs && n <= |a.tasks|
    && (forall k | 0 <= k < |a.tasks| :: a.tasks[k].Fetched? || a.tasks[k].Swallowed?)
    && a.absorbed == Indices(n) && a.jobs == AllJobs(a.tasks, Indices(n)) && a.steps == AllSteps(a.tasks, Indices(n))
  }

  ghost function Absorbed(a: Pass): Pass {
    var all := Indices(|a.tasks|);
    a.(absorbed := all, jobs := AllJobs(a.tasks, all), steps := AllSteps(a.tasks, all))
  }

  lemma {:induction false} AbsorbsLead(s: State, p: nat, n: nat) returns (steps: seq<Step>)
    requires p in s.passes && HalfAbsorbed(s.passes[p], n)
    ensures Leads(s, p, steps, s.store, Absorbed(s.passes[p]))
    decreases |s.passes[p].tasks| - n
  {
    var a := s.passes[p];
    steps := [];
    if n == |a.tasks| {
      assert s.passes[p := Absorbed(a)] == s.passes;
    } else {
      var step := Absorb(p, n);
      OneStep(s, p, step);
      AbsorbOne(a.tasks, Indices(n), n);
      var q := PassAfter(s, step);
      hide AllJobs, AllSteps, JobIds, StepKeys, Leads, Enabled, StoreAfter;
      var rest := AbsorbsLead(Moved(s, p, s.store, q), p, n + 1);
      Chain(s, p, [step], s.store, q, rest, s.store, Absorbed(a));
      steps := [step] + rest;
    }
  }

  // ---------------------------------------------------------------- a whole pass

  /** How a pass ends, and with what. */
  ghost predicate Ends(q: Pass, pages: nat -> Reply, fetch: (nat, nat) -> Fetch, limit: nat, fetchJobs: bool) {
    && q.limit == limit && q.fetchJobs == fetchJobs
    && match Gather(pages, 1, [], limit)
       case Unchanged => q.phase == Unmodified
       case Broken => q.phase == Dead
       case Complete(runs) =>
         if fetchJobs && AnyLimited(TasksOf(fetch, runs)) then q.phase == Dead
         else && q.phase == Finished && q.collected == runs && q.newEtag == FirstEtag(pages, limit)
              && q.tasks == if fetchJobs then TasksOf(fetch, runs) else []
  }

  lemma StartLeads(s: State, p: nat, limit: nat, fetchJobs: bool)
    requires p !in s.passes
    ensures Leads(s, p, [Start(p, limit, fetchJobs), ReadEtag(p)], s.store,
                  Pass(Paging(1), limit, fetchJobs, s.store.etag, None, [], [], {}, {}, {}))
  {
    var begin := Pass(ReadingEtag, limit, fetchJobs, None, None, [], [], {}, {}, {});
    var t := Next(s, Start(p, limit, fetchJobs));
    assert t == Moved(s, p, s.store, begin);
    assert Leads(s, p, [Start(p, limit, fetchJobs)], s.store, begin) by {
      assert [Start(p, limit, fetchJobs)][1..] == [] && Valid(t, []);
    }
    OneStep(t, p, ReadEtag(p));
    Chain(s, p, [Start(p, limit, fetchJobs)], s.store, begin, [ReadEtag(p)], s.store,
          begin.(sentEtag := s.store.etag, phase := Paging(1)));
    assert [Start(p, limit, fetchJobs)] + [ReadEtag(p)] == [Start(p, limit, fetchJobs), ReadEtag(p)];
  }

  lemma StoreLeads(s: State, p: nat)
    requires In(s, p, StoringEtag)
    ensures Leads(s, p, [StoreEtag(p)], WithEtag(s.store, s.passes[p].newEtag), s.passes[p].(phase := Finished))
  {
    OneStep(s, p, StoreEtag(p));
  }

  lemma TasksAreSettled(fetch: (nat, nat) -> Fetch, runs: seq<Run>)
    requires !AnyLimited(TasksOf(fetch, runs))
    ensures forall k | 0 <= k < |runs| :: TasksOf(fetch, runs)[k].Fetched? || TasksOf(fetch, runs)[k].Swallowed?
  {
    forall k | 0 <= k < |runs| ensures !TasksOf(fetch, runs)[k].Fetching? { TaskFetchesAll(fetch, runs[k], []); }
  }

  /** From the upserted runs to the second commit, when every task ended without a rate limit. */
  lemma JobsLead(s: State, p: nat, fetch: (nat, nat) -> Fetch) returns (steps: seq<Step>, q: Pass)
    requires p in s.passes && HalfFetched(s.passes[p], fetch, 0) && s.passes[p].absorbed == {}
    requires s.passes[p].jobs == {} && s.passes[p].steps == {}
    requires !AnyLimited(TasksOf(fetch, s.passes[p].collected))
    ensures Leads(s, p, steps, WithJobs(s.store, TasksOf(fetch, s.passes[p].collected)), q)
    ensures q == Absorbed(s.passes[p].(tasks := TasksOf(fetch, s.passes[p].collected))).(phase := StoringEtag)
  {
    var a := s.passes[p];
    var tasks := TasksOf(fetch, a.collected);
    var fetched := a.(tasks := tasks);
    TasksAreSettled(fetch, a.collected);
    steps := TasksLead(s, p, 0, fetch);
    var t := Moved(s, p, s.store, fetched);
    assert HalfAbsorbed(fetched, 0) by { assert AllJobs(tasks, {}) == {} && AllSteps(tasks, {}) == {}; }
    var rest := AbsorbsLead(t, p, 0);
    Chain(s, p, steps, s.store, fetched, rest, s.store, Absorbed(fetched));
    var u := Moved(s, p, s.store, Absorbed(fetched));
    hide AllJobs, AllSteps, TasksOf, AnyLimited;
    OneStep(u, p, CommitJobs(p));
    q := Absorbed(fetched).(phase := StoringEtag);
    Chain(s, p, steps + rest, s.store, Absorbed(fetched), [CommitJobs(p)], WithJobs(s.store, tasks), q);
    steps := steps + rest + [CommitJobs(p)];
  }

  /** From the gathered window to the end of the pass. */
  lemma CommitsLead(s: State, p: nat, fetch: (nat, nat) -> Fetch) returns (steps: seq<Step>, q: Pass)
    requires In(s, p, UpsertingRuns) && s.passes[p].tasks == [] && s.passes[p].absorbed == {}
    requires s.passes[p].jobs == {} && s.passes[p].steps == {}
    ensures var a := s.passes[p]; var tasks := TasksOf(fetch, a.collected);
            var rows := s.store.(runs := s.store.runs + RunIds(a.collected));
            && q.limit == a.limit && q.fetchJobs == a.fetchJobs && q.sentEtag == a.sentEtag
            && if a.fetchJobs && AnyLimited(tasks) then Leads(s, p, steps, rows, q) && q.phase == Dead
               else && q.phase == Finished && q.collected == a.collected && q.newEtag == a.newEtag
                    && q.tasks == (if a.fetchJobs then tasks else [])
                    && Leads(s, p, steps, WithEtag(if a.fetchJobs then WithJobs(rows, tasks) else rows, a.newEtag), q)
  {
    var a := s.passes[p];
    var rows := s.store.(runs := s.store.runs + RunIds(a.collected));
    var tasks := TasksOf(fetch, a.collected);
    OneStep(s, p, CommitRuns(p));
    steps := [CommitRuns(p)];
    var b := PassAfter(s, CommitRuns(p));
    var t := Moved(s, p, rows, b);
    if !a.fetchJobs {
      StoreLeads(t, p);
      q := b.(phase := Finished);
      Chain(s, p, steps, rows, b, [StoreEtag(p)], WithEtag(rows, a.newEtag), q);
      steps := steps + [StoreEtag(p)];
    } else if AnyLimited(tasks) {
      assert HalfFetched(b, fetch, 0);
      var more := TasksLead(t, p, 0, fetch);
      var fetched := b.(tasks := tasks);
      Chain(s, p, steps, rows, b, more, rows, fetched);
      OneStep(Moved(s, p, rows, fetched), p, Die(p));
      q := fetched.(phase := Dead);
      Chain(s, p, steps + more, rows, fetched, [Die(p)], rows, q);
      steps := steps + more + [Die(p)];
    } else {
      assert HalfFetched(b, fetch, 0);
      var more, c := JobsLead(t, p, fetch);
      Chain(s, p, steps, rows, b, more, WithJobs(rows, tasks), c);
      StoreLeads(Moved(s, p, WithJobs(rows, tasks), c), p);
      q := c.(phase := Finished);
      Chain(s, p, steps + more, WithJobs(rows, tasks), c, [StoreEtag(p)], WithEtag(WithJobs(rows, tasks), a.newEtag), q);
      steps := steps + more + [StoreEtag(p)];
    }
  }

  /** A pass of the program is a run of the system, whatever the provider answers, and leaves the same rows behind. */
  lemma PassIsARun(s: State, p: nat, pages: nat -> Reply, fetch: (nat, nat) -> Fetch, limit: nat, fetchJobs: bool)
    returns (steps: seq<Step>, q: Pass)
    requires p !in s.passes
    ensures Leads(s, p, steps, Leaves(s.store, pages, fetch, limit, fetchJobs), q)
    ensures Ends(q, pages, fetch, limit, fetchJobs) && q.sentEtag == s.store.etag
  {
    StartLeads(s, p, limit, fetchJobs);
    var begin := Pass(Paging(1), limit, fetchJobs, s.store.etag, None, [], [], {}, {}, {});
    steps := [Start(p, limit, fetchJobs), ReadEtag(p)];
    var more, a := PagesLead(Moved(s, p, s.store, begin), p, pages, 1);
    Chain(s, p, steps, s.store, begin, more, s.store, a);
    steps, q := steps + more, a;
    if Gather(pages, 1, [], limit).Complete? {
      var rest, z := CommitsLead(Moved(s, p, s.store, a), p, fetch);
      var end := Leaves(s.store, pages, fetch, limit, fetchJobs);
      hide Leads, AnyLimited, TasksOf, WithJobs, WithEtag, RunIds, FirstEtag;
      Chain(s, p, steps, s.store, a, rest, end, z);
      steps, q := steps + rest, z;
    }
  }

  // ---------------------------------------------------------------- exactly when a 304 is safe

  /** The provider knows every attempt of every listed run, each run has jobs, and none of it was stored before. */
  ghost predicate NewToTheStore(store: Store, fetch: (nat, nat) -> Fetch, listing: seq<Run>) {
    && (forall i, j | 0 <= i < j < |listing| :: listing[i].id != listing[j].id)
    && (forall i | 0 <= i < |listing| :: listing[i].id !in store.runs && Answered(fetch, listing[i]))
    && (forall i | 0 <= i < |listing| :: HasNewJob(store, fetch, listing[i]))
  }

  ghost predicate Answered(fetch: (nat, nat) -> Fetch, r: Run) {
    forall k: nat | k < Needed(r) :: fetch(r.id, k).Got?
  }

  ghost predicate HasNewJob(store: Store, fetch: (nat, nat) -> Fetch, r: Run) {
    exists k: nat, j: nat :: k < Needed(r) && fetch(r.id, k).Got? && j < |fetch(r.id, k).jobs|
                             && fetch(r.id, k).jobs[j].id !in store.jobs
  }

  /** Every attempt's jobs and steps, as the provider has them, are in the store. */
  ghost predicate AttemptsDurable(store: Store, fetch: (nat, nat) -> Fetch, r: Run) {
    forall k: nat | k < Needed(r) && fetch(r.id, k).Got? :: JobsDurable(store, [fetch(r.id, k).jobs])
  }

  ghost predicate Kept(store: Store, fetch: (nat, nat) -> Fetch, r: Run, withJobs: bool) {
    r.id in store.runs && (withJobs ==> AttemptsDurable(store, fetch, r))
  }

  ghost predicate WindowKept(store: Store, fetch: (nat, nat) -> Fetch, runs: seq<Run>, withJobs: bool) {
    forall i | 0 <= i < |runs| :: Kept(store, fetch, runs[i], withJobs)
  }

  lemma AnsweredIsFetched(fetch: (nat, nat) -> Fetch, r: Run)
    requires Answered(fetch, r)
    ensures var t := TaskOf(fetch, r);
            t.Fetched? && |t.got| == Needed(r) && forall k: nat | k < Needed(r) :: fetch(r.id, k) == Got(t.got[k])
  {
    TaskFetchesAll(fetch, r, []);
    AnsweredSettles(fetch, r, []);
  }

  lemma {:induction false} AnsweredSettles(fetch: (nat, nat) -> Fetch, r: Run, got: seq<seq<Job>>)
    requires Answered(fetch, r)
    ensures TaskFrom(fetch, r, got).Fetched?
    decreases if |got| < Needed(r) then Needed(r) - |got| else 0
  {
    if |got| < Needed(r) { AnsweredSettles(fetch, r, got + [fetch(r.id, |got|).jobs]); }
  }

  lemma OnePartOfAll(parts: seq<seq<Job>>, k: nat)
    requires k < |parts|
    ensures JobIds([parts[k]]) <= JobIds(parts) && StepKeys([parts[k]]) <= StepKeys(parts)
  {
  }

  lemma TaskWithinAll(tasks: seq<Task>, i: nat, k: nat)
    requires i < |tasks| && k < |Parts(tasks[i])|
    ensures JobIds([Parts(tasks[i])[k]]) <= AllJobs(tasks, Indices(|tasks|))
    ensures StepKeys([Parts(tasks[i])[k]]) <= AllSteps(tasks, Indices(|tasks|))
  {
    OnePartOfAll(Parts(tasks[i]), k);
    hide JobIds, StepKeys, Parts;
    assert i in Indices(|tasks|);
  }

  lemma {:induction false} FetchedIsDurable(store: Store, fetch: (nat, nat) -> Fetch, runs: seq<Run>, i: nat)
    requires i < |runs| && Answered(fetch, runs[i])
    requires AllJobs(TasksOf(fetch, runs), Indices(|runs|)) <= store.jobs
    requires AllSteps(TasksOf(fetch, runs), Indices(|runs|)) <= store.steps
    ensures AttemptsDurable(store, fetch, runs[i])
  {
    var tasks := TasksOf(fetch, runs);
    AnsweredIsFetched(fetch, runs[i]);
    hide AllJobs, AllSteps, JobIds, StepKeys, TaskOf;
    forall k: nat | k < Needed(runs[i]) ensures JobsDurable(store, [fetch(runs[i].id, k).jobs]) {
      TaskWithinAll(tasks, i, k);
    }
  }

  lemma NewJobIsMissing(store: Store, fetch: (nat, nat) -> Fetch, r: Run)
    requires HasNewJob(store, fetch, r)
    ensures !AttemptsDurable(store, fetch, r)
  {
    var k: nat, j: nat :| k < Needed(r) && fetch(r.id, k).Got? && j < |fetch(r.id, k).jobs|
                          && fetch(r.id, k).jobs[j].id !in store.jobs;
    var parts: seq<seq<Job>> := [fetch(r.id, k).jobs];
    assert parts[0][j].id in JobIds(parts);
  }

  lemma NoneLimited(store: Store, fetch: (nat, nat) -> Fetch, listing: seq<Run>, m: nat)
    requires NewToTheStore(store, fetch, listing)
    ensures !AnyLimited(TasksOf(fetch, Take(listing, m)))
  {
    var runs := Take(listing, m);
    forall i | 0 <= i < |runs| ensures !TasksOf(fetch, runs)[i].RateLimited? { AnsweredIsFetched(fetch, listing[i]); }
  }

  /** The pass stores the first `m` runs of the listing, with jobs or without; what does the first `n` find? */
  lemma StoredWindow(was: Store, fetch: (nat, nat) -> Fetch, listing: seq<Run>, m: nat, fetched: bool,
                     n: nat, wanted: bool, now: Store)
    requires m > 0 && n > 0 && NewToTheStore(was, fetch, listing)
    requires now.runs == was.runs + RunIds(Take(listing, m))
    requires var tasks := TasksOf(fetch, Take(listing, m));
             if fetched then now.jobs == WithJobs(was, tasks).jobs && now.steps == WithJobs(was, tasks).steps
             else now.jobs == was.jobs && now.steps == was.steps
    ensures WindowKept(now, fetch, Take(listing, n), wanted) <==>
              (n <= m || |listing| <= m) && (wanted && listing != [] ==> fetched)
  {
    var seen, asked := Take(listing, m), Take(listing, n);
    if !(n <= m || |listing| <= m) {
      assert asked[m] == listing[m] && listing[m].id !in RunIds(seen);
      assert !Kept(now, fetch, asked[m], wanted);
    } else if wanted && listing != [] && !fetched {
      NewJobIsMissing(now, fetch, listing[0]);
      assert !Kept(now, fetch, asked[0], wanted);
    } else {
      forall i | 0 <= i < |asked| ensures Kept(now, fetch, asked[i], wanted) {
        assert asked[i] == seen[i] && seen[i].id in RunIds(seen);
        if fetched { FetchedIsDurable(now, fetch, seen, i); }
      }
    }
  }

  /** One pass stores an ETag, the next one is told that nothing changed. The window of the second is durable as it
      wants it if and only if the first looked as far down and fetched jobs where the second does. */
  lemma NotModifiedExactly(s: State, p: nat, q: nat, pages: nat -> Reply, fetch: (nat, nat) -> Fetch,
                           listing: seq<Run>, m: nat, fetched: bool, n: nat, wanted: bool)
    returns (steps: seq<Step>, t: State)
    requires p !in s.passes && q !in s.passes && p != q && m > 0 && n > 0
    requires Gather(pages, 1, [], m) == Complete(Take(listing, m)) && FirstEtag(pages, m).Some?
    requires NewToTheStore(s.store, fetch, listing)
    ensures Valid(s, steps) && Reached(s, steps) == t && p in t.passes && q in t.passes
    ensures t.passes[p].phase == Finished && t.passes[p].limit == m && t.passes[p].fetchJobs == fetched
    ensures t.passes[p].newEtag == t.store.etag == t.passes[q].sentEtag == FirstEtag(pages, m)
    ensures t.passes[q].phase == Unmodified && t.passes[q].limit == n && t.passes[q].fetchJobs == wanted
    ensures WindowKept(t.store, fetch, Take(listing, n), wanted) <==>
              (n <= m || |listing| <= m) && (wanted && listing != [] ==> fetched)
  {
    NoneLimited(s.store, fetch, listing, m);
    var a: seq<Step>, z: Pass := PassIsARun(s, p, pages, fetch, m, fetched);
    var now := Leaves(s.store, pages, fetch, m, fetched);
    StoredWindow(s.store, fetch, listing, m, fetched, n, wanted, now);
    assert now.etag == FirstEtag(pages, m);
    assert z.phase == Finished && z.newEtag == FirstEtag(pages, m) && z.limit == m && z.fetchJobs == fetched;
    var u := Moved(s, p, now, z);
    var b: seq<Step>, y: Pass := Unchanging(u, q, n, wanted);
    ThenReached(s, a, b);
    hide Valid, Reached, WindowKept, Gather, FirstEtag;
    steps, t := a + b, Moved(u, q, now, y);
  }

  lemma Unchanging(s: State, q: nat, n: nat, wanted: bool) returns (steps: seq<Step>, y: Pass)
    requires q !in s.passes && n > 0
    ensures Leads(s, q, steps, s.store, y)
    ensures y.phase == Unmodified && y.limit == n && y.fetchJobs == wanted && y.sentEtag == s.store.etag
  {
    StartLeads(s, q, n, wanted);
    var begin := Pass(Paging(1), n, wanted, s.store.etag, None, [], [], {}, {}, {});
    var t := Moved(s, q, s.store, begin);
    OneStep(t, q, FetchPage(q, [], None, true));
    y := begin.(phase := Unmodified);
    Chain(s, q, [Start(q, n, wanted), ReadEtag(q)], s.store, begin, [FetchPage(q, [], None, true)], s.store, y);
    steps := [Start(q, n, wanted), ReadEtag(q)] + [FetchPage(q, [], None, true)];
  }

  // ---------------------------------------------------------------- jobs lost behind a metadata-only pass

  function LossyStep(n: nat): Step {
    if n == 0 then Start(0, 1, false) else if n == 1 then ReadEtag(0)
    else if n == 2 then FetchPage(0, [Run(7, 1)], Some("e"), false) else if n == 3 then StopPaging(0)
    else if n == 4 then CommitRuns(0) else if n == 5 then StoreEtag(0) else if n == 6 then Start(1, 1, true)
    else if n == 7 then ReadEtag(1) else FetchPage(1, [], None, true)
  }

  /** The first pass after `n` steps. */
  function LossyFirst(n: nat): Pass {
    var begin := Pass(ReadingEtag, 1, false, None, None, [], [], {}, {}, {});
    if n == 1 then begin else if n == 2 then begin.(phase := Paging(1))
    else
      var paged := begin.(newEtag := Some("e"), collected := [Run(7, 1)]);
      if n == 3 then paged.(phase := Paging(2)) else if n == 4 then paged.(phase := UpsertingRuns)
      else if n == 5 then paged.(phase := StoringEtag) else paged.(phase := Finished)
  }

  function LossyState(n: nat): State {
    var etag := if n >= 6 then Some("e") else None;
    var store := Store(etag, if n >= 5 then {7} else {}, {}, {});
    var second := Pass(ReadingEtag, 1, true, None, None, [], [], {}, {}, {});
    State(store,
          if n == 0 then map[] else if n < 7 then map[0 := LossyFirst(n)]
          else if n == 7 then map[0 := LossyFirst(n), 1 := second]
          else map[0 := LossyFirst(n),
                   1 := second.(sentEtag := Some("e"), phase := if n == 8 then Paging(1) else Unmodified)])
  }

  lemma OneRunId(r: Run)
    ensures RunIds([r]) == {r.id}
  {
    assert [r][0].id in RunIds([r]);
  }

  lemma LossyBegin(n: nat)
    requires n < 4
    ensures Enabled(LossyState(n), LossyStep(n)) && LossyState(n + 1) == Next(LossyState(n), LossyStep(n))
  {
    assert [Run(7, 1)][..1] == [Run(7, 1)] && [] + [Run(7, 1)] == [Run(7, 1)];
    assert LossyState(n + 1).passes == Next(LossyState(n), LossyStep(n)).passes;
  }

  lemma LossyCommit()
    ensures Enabled(LossyState(4), LossyStep(4)) && LossyState(5) == Next(LossyState(4), LossyStep(4))
  {
    OneRunId(Run(7, 1));
    assert {} + {7} == {7};
    assert LossyState(5).passes == Next(LossyState(4), LossyStep(4)).passes;
  }

  lemma LossyEnd(n: nat)
    requires 5 <= n < 9
    ensures Enabled(LossyState(n), LossyStep(n)) && LossyState(n + 1) == Next(LossyState(n), LossyStep(n))
  {
    assert LossyState(n + 1).passes == Next(LossyState(n), LossyStep(n)).passes;
  }

  /** A pass that fetches no jobs stores the ETag; the next one would fetch them, is told that nothing changed, and
      the jobs of run 7 stay missing. */
  lemma MetadataOnlyPassHidesJobs() returns (trace: seq<State>, steps: seq<Step>)
    ensures IsRun(trace, steps) && |steps| == 9
    ensures steps[0] == Start(0, 1, false) && steps[6] == Start(1, 1, true)
    ensures trace[9].store == Store(Some("e"), {7}, {}, {})
    ensures 0 in trace[9].passes && trace[9].passes[0].phase == Finished && trace[9].passes[0].collected == [Run(7, 1)]
    ensures 1 in trace[9].passes && trace[9].passes[1].phase == Unmodified && trace[9].passes[1].fetchJobs
    ensures !WindowDurable(trace[9].store, trace[9].passes[0])
  {
    assert Init(LossyState(0));
    assert !JobsSafe(LossyState(9).store, LossyFirst(9), 0);
    trace, steps := seq(10, n requires 0 <= n < 10 => LossyState(n)), seq(9, n requires 0 <= n < 9 => LossyStep(n));
    assert !WindowDurable(trace[9].store, trace[9].passes[0]) by { assert 0 <= 0 < |trace[9].passes[0].collected|; }
    forall n | 0 <= n < 9 ensures Enabled(trace[n], steps[n]) && trace[n + 1] == Next(trace[n], steps[n]) {
      hide *;
      if n < 4 { LossyBegin(n); } else if n == 4 { LossyCommit(); } else { LossyEnd(n); }
    }
  }
}
