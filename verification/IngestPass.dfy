/** One ingest pass as the program runs it (src/cadence/ingest.py:216-326). `Ingest` says what may happen when
    several interleave; here one runs against a provider that answers, rate-limits or fails. */
module IngestPass {
  import opened Common
  import opened Ingest

  /** The provider's answer to one page request. */
  datatype Reply = Page(runs: seq<Run>, etag: Option<Etag>) | NotModified | Raises

  /** The provider's answer to one jobs request. */
  datatype Fetch = Got(jobs: seq<Job>) | Limited | Errs

  datatype Window = Complete(runs: seq<Run>) | Unchanged | Broken

  datatype Outcome = Completed(pass: Pass) | StoppedUnchanged | StoppedRaising | StoppedLimited

  // ---------------------------------------------------------------- what the provider's answers amount to

  /** The runs a pass is about: pages until there are enough or none are left, then the first `limit` of them. */
  function Gather(pages: nat -> Reply, page: nat, have: seq<Run>, limit: nat): Window
    decreases if |have| < limit then limit - |have| else 0
  {
    if |have| >= limit then Complete(have[..limit])
    else
      match pages(page)
      case NotModified => Unchanged
      case Raises => Broken
      case Page(runs, _) => if runs == [] then Complete(have) else Gather(pages, page + 1, have + runs, limit)
  }

  /** The ETag of the first page, when a page was requested at all. */
  function FirstEtag(pages: nat -> Reply, limit: nat): Option<Etag> {
    if limit > 0 && pages(1).Page? then pages(1).etag else None
  }

  /** A run's requests from the `|got|`-th on: the latest attempt, then every earlier one. */
  function TaskFrom(fetch: (nat, nat) -> Fetch, r: Run, got: seq<seq<Job>>): Task
    decreases if |got| < Needed(r) then Needed(r) - |got| else 0
  {
    if |got| >= Needed(r) then Fetched(got)
    else
      match fetch(r.id, |got|)
      case Got(jobs) => TaskFrom(fetch, r, got + [jobs])
      case Limited => RateLimited
      case Errs => Swallowed
  }

  function TaskOf(fetch: (nat, nat) -> Fetch, r: Run): Task { TaskFrom(fetch, r, []) }

  function Parts(t: Task): seq<seq<Job>> { if t.Fetched? then t.got else [] }

  ghost function AllJobs(tasks: seq<Task>, among: set<nat>): set<nat> {
    set i, x | i in among && i < |tasks| && x in JobIds(Parts(tasks[i])) :: x
  }

  ghost function AllSteps(tasks: seq<Task>, among: set<nat>): set<(nat, nat)> {
    set i, x | i in among && i < |tasks| && x in StepKeys(Parts(tasks[i])) :: x
  }

  function Indices(n: nat): (r: set<nat>)
    ensures forall i :: i in r <==> 0 <= i < n
  {
    if n == 0 then {} else Indices(n - 1) + {n - 1}
  }

  function TasksOf(fetch: (nat, nat) -> Fetch, runs: seq<Run>): seq<Task> {
    seq(|runs|, i requires 0 <= i < |runs| => TaskOf(fetch, runs[i]))
  }

  predicate AnyLimited(tasks: seq<Task>) { exists i :: 0 <= i < |tasks| && tasks[i].RateLimited? }

  function WithEtag(store: Store, etag: Option<Etag>): Store {
    if etag.Some? then store.(etag := etag) else store
  }

  ghost function WithJobs(store: Store, tasks: seq<Task>): Store {
    store.(jobs := store.jobs + AllJobs(tasks, Indices(|tasks|)), steps := store.steps + AllSteps(tasks, Indices(|tasks|)))
  }

  /** The committed rows a pass leaves behind, however it ends. */
  ghost function Leaves(was: Store, pages: nat -> Reply, fetch: (nat, nat) -> Fetch, limit: nat, fetchJobs: bool): Store {
    match Gather(pages, 1, [], limit)
    case Unchanged => was
    case Broken => was
    case Complete(runs) =>
      var rows := was.(runs := was.runs + RunIds(runs));
      if !fetchJobs then WithEtag(rows, FirstEtag(pages, limit))
      else if AnyLimited(TasksOf(fetch, runs)) then rows
      else WithEtag(WithJobs(rows, TasksOf(fetch, runs)), FirstEtag(pages, limit))
  }

  function Concat(chunks: seq<seq<Run>>): seq<Run> { if chunks == [] then [] else chunks[0] + Concat(chunks[1..]) }

  /** The provider lists these pages from `page` on, none of them empty, and then an empty one. */
  ghost predicate Lists(pages: nat -> Reply, page: nat, chunks: seq<seq<Run>>)
    decreases |chunks|
  {
    && pages(page).Page?
    && if chunks == [] then pages(page).runs == []
       else pages(page).runs == chunks[0] != [] && Lists(pages, page + 1, chunks[1..])
  }

  /** However a listing is cut into pages, a pass is about its first `limit` runs. */
  lemma {:induction false} GatherTakes(pages: nat -> Reply, page: nat, chunks: seq<seq<Run>>, have: seq<Run>, limit: nat)
    requires Lists(pages, page, chunks)
    ensures Gather(pages, page, have, limit) == Complete(Take(have + Concat(chunks), limit))
    decreases |chunks|
  {
    var all := have + Concat(chunks);
    if |have| >= limit {
      assert all[..limit] == have[..limit];
    } else if chunks == [] {
      assert all == have;
    } else {
      GatherTakes(pages, page + 1, chunks[1..], have + chunks[0], limit);
      assert have + chunks[0] + Concat(chunks[1..]) == all;
    }
  }

  lemma {:induction false} TaskFetchesAll(fetch: (nat, nat) -> Fetch, r: Run, got: seq<seq<Job>>)
    requires |got| <= Needed(r)
    ensures var t := TaskFrom(fetch, r, got);
            && !t.Fetching?
            && (t.Fetched? ==>
                  && |t.got| == Needed(r) && got <= t.got
                  && forall k | |got| <= k < Needed(r) :: fetch(r.id, k) == Got(t.got[k]))
    decreases Needed(r) - |got|
  {
    if |got| < Needed(r) && fetch(r.id, |got|).Got? {
      TaskFetchesAll(fetch, r, got + [fetch(r.id, |got|).jobs]);
    }
  }

  // ---------------------------------------------------------------- the pass

  class Repository {
    var store: Store

    constructor (store: Store)
      ensures this.store == store
    {
      this.store := store;
    }

    /** The paging loop (ingest.py:245-272). */
    method CollectPages(pages: nat -> Reply, limit: nat) returns (window: Window, etag: Option<Etag>)
      ensures window == Gather(pages, 1, [], limit)
      ensures window.Complete? ==> etag == FirstEtag(pages, limit)
    {
      var collected: seq<Run>, page: nat := [], 1;
      etag := None;
      while |collected| < limit
        invariant Gather(pages, 1, [], limit) == Gather(pages, page, collected, limit)
        invariant etag == if page == 1 then None else FirstEtag(pages, limit)
        invariant page >= 1 && (page == 1 ==> collected == [])
        decreases limit - |collected|
      {
        match pages(page) {
          case NotModified => return Unchanged, None;
          case Raises => return Broken, None;
          case Page(runs, tag) =>
            if page == 1 {
              etag := tag;
            }
            if runs == [] {
              return Complete(collected), etag;
            }
            collected := collected + runs;
            page := page + 1;
        }
      }
      window := Complete(collected[..limit]);
    }

    /** `_jobs_for` (ingest.py:286-301). */
    method JobsFor(fetch: (nat, nat) -> Fetch, r: Run) returns (task: Task)
      ensures task == TaskOf(fetch, r)
    {
      var got: seq<seq<Job>> := [];
      while |got| < Needed(r)
        invariant TaskOf(fetch, r) == TaskFrom(fetch, r, got)
        decreases Needed(r) - |got|
      {
        match fetch(r.id, |got|) {
          case Got(jobs) => got := got + [jobs];
          case Limited => return RateLimited;
          case Errs => return Swallowed;
        }
      }
      task := Fetched(got);
    }

    /** Tasks are awaited in whatever order they finish; a rate limit abandons everything not yet committed. */
    method AbsorbAll(fetch: (nat, nat) -> Fetch, runs: seq<Run>)
      returns (tasks: seq<Task>, limited: bool, jobs: set<nat>, steps: set<(nat, nat)>)
      ensures tasks == TasksOf(fetch, runs)
      ensures limited <==> AnyLimited(tasks)
      ensures !limited ==> jobs == AllJobs(tasks, Indices(|runs|)) && steps == AllSteps(tasks, Indices(|runs|))
    {
      tasks, limited, jobs, steps := [], false, {}, {};
      for i := 0 to |runs|
        invariant |tasks| == i && forall k | 0 <= k < i :: tasks[k] == TaskOf(fetch, runs[k])
      {
        var t := JobsFor(fetch, runs[i]);
        tasks := tasks + [t];
      }
      assert tasks == TasksOf(fetch, runs);
      var todo := Indices(|runs|);
      ghost var finished: set<nat> := {};
      while todo != {}
        invariant todo <= Indices(|runs|) && finished == Indices(|runs|) - todo
        invariant forall i | i in finished :: !tasks[i].RateLimited?
        invariant jobs == AllJobs(tasks, finished) && steps == AllSteps(tasks, finished)
      {
        var i :| i in todo;
        if tasks[i].RateLimited? {
          return tasks, true, {}, {};
        }
        AbsorbOne(tasks, finished, i);
        jobs, steps := jobs + JobIds(Parts(tasks[i])), steps + StepKeys(Parts(tasks[i]));
        todo, finished := todo - {i}, finished + {i};
      }
    }

    /** The three commit points in order: runs, then jobs and steps, then the cursor. */
    method IngestRepo(pages: nat -> Reply, fetch: (nat, nat) -> Fetch, limit: nat, fetchJobs: bool)
      returns (outcome: Outcome)
      modifies this
      ensures store == Leaves(old(store), pages, fetch, limit, fetchJobs)
      ensures var w := Gather(pages, 1, [], limit);
              match outcome
              case StoppedUnchanged => w == Unchanged
              case StoppedRaising => w == Broken
              case StoppedLimited => fetchJobs && w.Complete? && AnyLimited(TasksOf(fetch, w.runs))
              case Completed(p) =>
                && w == Complete(p.collected) && p.fetchJobs == fetchJobs && p.newEtag == FirstEtag(pages, limit)
                && p.tasks == (if fetchJobs then TasksOf(fetch, w.runs) else []) && !AnyLimited(p.tasks)
                && p.limit == limit && p.absorbed == Indices(|p.tasks|)
                && WindowSafe(store, p)
    {
      var window, etag := CollectPages(pages, limit);
      if window.Unchanged? {
        return StoppedUnchanged;
      }
      if window.Broken? {
        return StoppedRaising;
      }
      var runs := window.runs;
      store := store.(runs := store.runs + RunIds(runs));
      var tasks: seq<Task> := [];
      if fetchJobs {
        var limited, jobs, steps;
        tasks, limited, jobs, steps := AbsorbAll(fetch, runs);
        if limited {
          return StoppedLimited;
        }
        store := store.(jobs := store.jobs + jobs, steps := store.steps + steps);
      }
      var pass := Pass(Finished, limit, fetchJobs, None, etag, runs, tasks, Indices(|tasks|), {}, {});
      WholeWindowSafe(store, pass, fetch);
      ghost var durable := store;
      if etag.Some? {
        store := store.(etag := etag);
      }
      SafeSurvives(durable, store, pass);
      outcome := Completed(pass);
    }
  }

  lemma AbsorbOne(tasks: seq<Task>, finished: set<nat>, i: nat)
    requires i < |tasks|
    ensures AllJobs(tasks, finished + {i}) == AllJobs(tasks, finished) + JobIds(Parts(tasks[i]))
    ensures AllSteps(tasks, finished + {i}) == AllSteps(tasks, finished) + StepKeys(Parts(tasks[i]))
  {
    hide JobIds, StepKeys;
  }

  /** A completed pass leaves its whole window durable, save the runs whose fetch error was swallowed. */
  lemma WholeWindowSafe(store: Store, p: Pass, fetch: (nat, nat) -> Fetch)
    requires RunIds(p.collected) <= store.runs
    requires p.fetchJobs ==> p.tasks == TasksOf(fetch, p.collected)
    requires !AnyLimited(p.tasks)
    requires AllJobs(p.tasks, Indices(|p.tasks|)) <= store.jobs && AllSteps(p.tasks, Indices(|p.tasks|)) <= store.steps
    ensures WindowSafe(store, p)
  {
    forall i | 0 <= i < |p.collected| ensures RunSafe(store, p, i) {
      assert p.collected[i].id in RunIds(p.collected);
      if p.fetchJobs {
        TaskFetchesAll(fetch, p.collected[i], []);
        assert i in Indices(|p.tasks|);
        assert JobIds(Parts(p.tasks[i])) <= AllJobs(p.tasks, Indices(|p.tasks|));
        assert StepKeys(Parts(p.tasks[i])) <= AllSteps(p.tasks, Indices(|p.tasks|));
      }
    }
  }
}
