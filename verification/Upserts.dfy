/** Run and job rows under repeated, partial and out-of-order events (src/cadence/ingest.py:54-190). */
module Upserts {
  import opened Common

  function Coalesce<T>(a: Option<T>, b: Option<T>): Option<T> { if a.Some? then a else b }

  /** `identity` stands for the columns that both inserts fill and no conflict clause updates. */
  datatype RunRow = RunRow(identity: string, status: Option<string>, conclusion: Option<string>,
                           updatedAt: Option<real>, attempt: nat, startedAt: Option<real>,
                           treeSha: Option<string>, pullRequest: Option<nat>)

  datatype JobRow = JobRow(identity: string, status: Option<string>, conclusion: Option<string>,
                           completedAt: Option<real>, startedAt: Option<real>, runnerGroup: Option<string>,
                           labels: seq<string>, matrix: Option<string>)

  /** A stub carries only what a job event knows about its run. */
  datatype RunEvent = Full(row: RunRow) | Stub(row: RunRow)

  function StubRow(r: RunRow): RunRow {
    RunRow(r.identity, None, None, None, r.attempt, r.startedAt, None, None)
  }

  function MergeRun(was: RunRow, now: RunRow): RunRow {
    RunRow(was.identity, now.status, now.conclusion, now.updatedAt,
           if was.attempt >= now.attempt then was.attempt else now.attempt,
           Coalesce(now.startedAt, was.startedAt), Coalesce(now.treeSha, was.treeSha),
           Coalesce(now.pullRequest, was.pullRequest))
  }

  function MergeJob(was: JobRow, now: JobRow): JobRow {
    JobRow(was.identity, now.status, now.conclusion, now.completedAt, Coalesce(now.startedAt, was.startedAt),
           Coalesce(now.runnerGroup, was.runnerGroup), if now.labels == [] then was.labels else now.labels,
           Coalesce(now.matrix, was.matrix))
  }

  function RunAfter(was: Option<RunRow>, e: RunEvent): RunRow {
    match was
    case None => if e.Stub? then StubRow(e.row) else e.row
    case Some(r) => if e.Stub? then r else MergeRun(r, e.row)
  }

  class RowStore {
    var runs: map<nat, RunRow>
    var jobs: map<nat, JobRow>

    constructor ()
      ensures runs == map[] && jobs == map[]
    {
      runs, jobs := map[], map[];
    }

    method UpsertRun(id: nat, row: RunRow)
      modifies this`runs
      ensures runs == old(runs)[id := RunAfter(if id in old(runs) then Some(old(runs)[id]) else None, Full(row))]
    {
      if id in runs {
        runs := runs[id := MergeRun(runs[id], row)];
      } else {
        runs := runs[id := row];
      }
    }

    /** ON CONFLICT DO NOTHING: a stub never wins against a row. */
    method EnsureRunStub(id: nat, row: RunRow)
      modifies this`runs
      ensures runs == old(runs)[id := RunAfter(if id in old(runs) then Some(old(runs)[id]) else None, Stub(row))]
    {
      if id !in runs {
        runs := runs[id := StubRow(row)];
      }
    }

    method UpsertJob(id: nat, row: JobRow)
      modifies this`jobs
      ensures jobs == old(jobs)[id := if id in old(jobs) then MergeJob(old(jobs)[id], row) else row]
    {
      if id in jobs {
        jobs := jobs[id := MergeJob(jobs[id], row)];
      } else {
        jobs := jobs[id := row];
      }
    }
  }

  // ---------------------------------------------------------------- any history of one row

  function RunHistory(events: seq<RunEvent>): Option<RunRow> {
    if events == [] then None
    else Some(RunAfter(RunHistory(events[..|events| - 1]), events[|events| - 1]))
  }

  function JobHistory(events: seq<JobRow>): Option<JobRow> {
    if events == [] then None
    else
      var last := events[|events| - 1];
      Some(match JobHistory(events[..|events| - 1]) case None => last case Some(r) => MergeJob(r, last))
  }

  /** An event counts unless it is a stub that found a row. */
  predicate Counts(events: seq<RunEvent>, i: nat)
    requires i < |events|
  {
    i == 0 || events[i].Full?
  }

  /** `i` is the last counted event that carries a start time. */
  ghost predicate IsLastStart(events: seq<RunEvent>, i: nat) {
    && i < |events| && Counts(events, i) && events[i].row.startedAt.Some?
    && forall k: nat | i < k < |events| && Counts(events, k) :: events[k].row.startedAt.None?
  }

  ghost predicate IsLastTree(events: seq<RunEvent>, i: nat) {
    && i < |events| && Counts(events, i) && !(i == 0 && events[0].Stub?) && events[i].row.treeSha.Some?
    && forall k: nat | i < k < |events| && Counts(events, k) :: events[k].row.treeSha.None?
  }

  ghost predicate IsLastPull(events: seq<RunEvent>, i: nat) {
    && i < |events| && Counts(events, i) && !(i == 0 && events[0].Stub?) && events[i].row.pullRequest.Some?
    && forall k: nat | i < k < |events| && Counts(events, k) :: events[k].row.pullRequest.None?
  }

  ghost predicate IsLastFull(events: seq<RunEvent>, i: nat) {
    i < |events| && events[i].Full? && forall k: nat | i < k < |events| :: events[k].Stub?
  }

  /** The attempt is the greatest any counted event carried, so it cannot depend on their order; a start time,
      once carried, is kept, and is the latest one carried. */
  lemma {:induction false} RunRemembers(events: seq<RunEvent>)
    requires events != []
    ensures var r := RunHistory(events).value;
            && (forall i | 0 <= i < |events| && Counts(events, i) :: events[i].row.attempt <= r.attempt)
            && (exists i: nat :: i < |events| && Counts(events, i) && events[i].row.attempt == r.attempt)
            && (forall i: nat | IsLastStart(events, i) :: r.startedAt == events[i].row.startedAt)
            && (r.startedAt.None? ==> forall i | 0 <= i < |events| && Counts(events, i) :: events[i].row.startedAt.None?)
            && r.identity == events[0].row.identity
    decreases |events|
  {
    var k := |events| - 1;
    if k > 0 {
      var front := events[..k];
      RunRemembers(front);
      assert forall i | 0 <= i < k :: front[i] == events[i] && Counts(front, i) == Counts(events, i);
      forall i: nat | IsLastStart(events, i) ensures RunHistory(events).value.startedAt == events[i].row.startedAt {
        if i < k { assert IsLastStart(front, i); }
      }
      var i: nat :| i < k && Counts(front, i) && front[i].row.attempt == RunHistory(front).value.attempt;
      assert Counts(events, i);
    }
    assert Counts(events, 0);
  }

  lemma FrontAgrees(events: seq<RunEvent>, k: nat)
    requires k < |events|
    ensures forall i | 0 <= i < k :: events[..k][i] == events[i] && Counts(events[..k], i) == Counts(events, i)
  {
  }

  /** The outcome columns are the last full event's. */
  lemma {:induction false} RunReports(events: seq<RunEvent>)
    requires events != []
    ensures forall i: nat | IsLastFull(events, i) ::
              var r, e := RunHistory(events).value, events[i].row;
              r.status == e.status && r.conclusion == e.conclusion && r.updatedAt == e.updatedAt
    decreases |events|
  {
    var k := |events| - 1;
    if k > 0 {
      RunReports(events[..k]);
      FrontAgrees(events, k);
      forall i: nat | IsLastFull(events, i) && i < k ensures IsLastFull(events[..k], i) {}
    }
  }

  /** While only stubs arrived, the row is what the first of them knew, and no outcome. */
  lemma {:induction false} StubsReportNothing(events: seq<RunEvent>)
    requires events != [] && forall i | 0 <= i < |events| :: events[i].Stub?
    ensures RunHistory(events) == Some(RunRow(events[0].row.identity, None, None, None, events[0].row.attempt,
                                              events[0].row.startedAt, None, None))
    decreases |events|
  {
    if |events| > 1 { StubsReportNothing(events[..|events| - 1]); }
  }

  /** A tree, once a full event carried it, is kept, and is the latest carried. */
  lemma {:induction false} RunKeepsTree(events: seq<RunEvent>)
    requires events != []
    ensures forall i: nat | IsLastTree(events, i) :: RunHistory(events).value.treeSha == events[i].row.treeSha
    decreases |events|
  {
    var k := |events| - 1;
    if k > 0 {
      RunKeepsTree(events[..k]);
      FrontAgrees(events, k);
      forall i: nat | IsLastTree(events, i) && i < k ensures IsLastTree(events[..k], i) {}
    }
  }

  /** So is a pull request. */
  lemma {:induction false} RunKeepsPull(events: seq<RunEvent>)
    requires events != []
    ensures forall i: nat | IsLastPull(events, i) :: RunHistory(events).value.pullRequest == events[i].row.pullRequest
    decreases |events|
  {
    var k := |events| - 1;
    if k > 0 {
      RunKeepsPull(events[..k]);
      FrontAgrees(events, k);
      forall i: nat | IsLastPull(events, i) && i < k ensures IsLastPull(events[..k], i) {}
    }
  }

  ghost predicate IsLastLabelled(events: seq<JobRow>, i: nat) {
    i < |events| && events[i].labels != [] && forall k | i < k < |events| :: events[k].labels == []
  }

  ghost predicate IsLastStarted(events: seq<JobRow>, i: nat) {
    i < |events| && events[i].startedAt.Some? && forall k | i < k < |events| :: events[k].startedAt.None?
  }

  ghost predicate IsLastGrouped(events: seq<JobRow>, i: nat) {
    i < |events| && events[i].runnerGroup.Some? && forall k | i < k < |events| :: events[k].runnerGroup.None?
  }

  ghost predicate IsLastMatrixed(events: seq<JobRow>, i: nat) {
    i < |events| && events[i].matrix.Some? && forall k | i < k < |events| :: events[k].matrix.None?
  }

  /** Runner group and matrix, like the start time, are the latest carried. */
  lemma {:induction false} JobKeeps(events: seq<JobRow>)
    requires events != []
    ensures var r := JobHistory(events).value;
            && (forall i: nat | IsLastGrouped(events, i) :: r.runnerGroup == events[i].runnerGroup)
            && (forall i: nat | IsLastMatrixed(events, i) :: r.matrix == events[i].matrix)
            && r.conclusion == events[|events| - 1].conclusion
    decreases |events|
  {
    var k := |events| - 1;
    if k > 0 {
      var front := events[..k];
      JobKeeps(front);
      assert forall i | 0 <= i < k :: front[i] == events[i];
      forall i: nat | IsLastGrouped(events, i) ensures JobHistory(events).value.runnerGroup == events[i].runnerGroup {
        if i < k { assert IsLastGrouped(front, i); }
      }
      forall i: nat | IsLastMatrixed(events, i) ensures JobHistory(events).value.matrix == events[i].matrix {
        if i < k { assert IsLastMatrixed(front, i); }
      }
    }
  }

  /** Start time and labels are the latest non-empty ones; the outcome is simply the last event's. */
  lemma {:induction false} JobRemembers(events: seq<JobRow>)
    requires events != []
    ensures var r := JobHistory(events).value;
            && (forall i: nat | IsLastStarted(events, i) :: r.startedAt == events[i].startedAt)
            && (forall i: nat | IsLastLabelled(events, i) :: r.labels == events[i].labels)
            && (r.startedAt.None? ==> forall i | 0 <= i < |events| :: events[i].startedAt.None?)
            && (r.labels == [] ==> forall i | 0 <= i < |events| :: events[i].labels == [])
            && r.status == events[|events| - 1].status && r.completedAt == events[|events| - 1].completedAt
            && r.identity == events[0].identity
    decreases |events|
  {
    var k := |events| - 1;
    if k > 0 {
      var front := events[..k];
      JobRemembers(front);
      assert forall i | 0 <= i < k :: front[i] == events[i];
      forall i: nat | IsLastStarted(events, i) ensures JobHistory(events).value.startedAt == events[i].startedAt {
        if i < k { assert IsLastStarted(front, i); }
      }
      forall i: nat | IsLastLabelled(events, i) ensures JobHistory(events).value.labels == events[i].labels {
        if i < k { assert IsLastLabelled(front, i); }
      }
    }
  }
}
