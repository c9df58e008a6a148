/** Claim loops over the job table as a transition system with a clock (src/cadence/worker.py). */
module Worker {
  import opened Common
  import opened Queue

  const JOB_TIMEOUT: real := 600.0
  const POLL_INTERVAL: real := 1800.0
  const RETRY_DELAY: real := 60.0
  const MAX_ATTEMPTS: nat := 5

  /** How long a live loop may take to write an outcome once its dispatch has ended. */
  const SLACK: real := LEASE - JOB_TIMEOUT

  /** How a dispatch ended: normally, with a terminal exception, or with one that asks for a delay. */
  datatype Outcome = Success | Terminal | Retry(delay: real)

  /** `scheduled` says the poll's follow-up is in place; `attempts` is the value read when claiming. */
  datatype Loop =
    | Idle
    | Running(job: nat, attempts: nat, scheduled: bool)
    | Writing(job: nat, attempts: nat, scheduled: bool, outcome: Outcome, endedAt: real)

  datatype State = State(rows: Table, nextId: nat, now: real, loops: map<nat, Loop>)

  datatype Step =
    | Tick(dt: real)
    | Enqueue(work: Work, runAt: real)
    | Claim(w: nat, id: nat)
    | Schedule(w: nat)
    | ScheduleFails(w: nat)
    | End(w: nat, outcome: Outcome)
    | Write(w: nat)
    | Crash(w: nat)

  // ---------------------------------------------------------------- the transitions

  /** A live loop holds its dispatch under the timeout and its write under the slack. */
  predicate KeepsTime(s: State, l: Loop, now: real) {
    match l
    case Idle => true
    case Running(job, _, _) => job in s.rows ==> now <= s.rows[job].updatedAt + JOB_TIMEOUT
    case Writing(_, _, _, _, endedAt) => now <= endedAt + SLACK
  }

  predicate PendingPoll(r: Row, repo: string) { r.status == Pending && r.work == PollRepo(repo) }

  predicate IsPoll(rows: Table, id: nat) { id in rows && rows[id].work.PollRepo? }

  ghost predicate Enabled(s: State, step: Step) {
    match step
    case Tick(dt) => dt >= 0.0 && forall w | w in s.loops :: KeepsTime(s, s.loops[w], s.now + dt)
    case Enqueue(_, _) => true
    case Claim(w, id) => w in s.loops && s.loops[w].Idle? && id in s.rows && Claimable(s.rows[id], s.now)
    case Schedule(w) => w in s.loops && s.loops[w].Running? && !s.loops[w].scheduled && IsPoll(s.rows, s.loops[w].job)
    case ScheduleFails(w) => w in s.loops && s.loops[w].Running? && !s.loops[w].scheduled
                             && IsPoll(s.rows, s.loops[w].job)
    case End(w, _) => w in s.loops && s.loops[w].Running?
                      && (IsPoll(s.rows, s.loops[w].job) ==> s.loops[w].scheduled)
    case Write(w) => w in s.loops && s.loops[w].Writing?
    case Crash(w) => w in s.loops
  }

  /** The row an outcome leaves behind (worker.py:168-216); retries stop at the attempt ceiling. */
  function Settle(r: Row, l: Loop, now: real): Row
    requires l.Writing?
  {
    match l.outcome
    case Success => CompleteRow(r, now)
    case Terminal => FailRow(r, now, None)
    case Retry(delay) => FailRow(r, now, if l.attempts < MAX_ATTEMPTS then Some(delay) else None)
  }

  ghost function Next(s: State, step: Step): State
    requires Enabled(s, step)
  {
    match step
    case Tick(dt) => s.(now := s.now + dt)
    case Enqueue(work, runAt) =>
      s.(rows := s.rows[s.nextId := NewRow(work, runAt, s.now)], nextId := s.nextId + 1)
    case Claim(w, id) =>
      s.(rows := s.rows[id := ClaimRow(s.rows[id], s.now)],
         loops := s.loops[w := Running(id, s.rows[id].attempts, false)])
    case Schedule(w) =>
      var l := s.loops[w];
      var repo := s.rows[l.job].work.repo;
      var t := s.(loops := s.loops[w := Running(l.job, l.attempts, true)]);
      if exists id :: id in s.rows && PendingPoll(s.rows[id], repo) then t
      else t.(rows := s.rows[s.nextId := NewRow(PollRepo(repo), s.now + POLL_INTERVAL, s.now)],
              nextId := s.nextId + 1)
    case ScheduleFails(w) =>
      var l := s.loops[w];
      s.(loops := s.loops[w := Writing(l.job, l.attempts, false, Retry(RETRY_DELAY), s.now)])
    case End(w, outcome) =>
      var l := s.loops[w];
      s.(loops := s.loops[w := Writing(l.job, l.attempts, l.scheduled, outcome, s.now)])
    case Write(w) =>
      var l := s.loops[w];
      s.(rows := if l.job in s.rows then s.rows[l.job := Settle(s.rows[l.job], l, s.now)] else s.rows,
         loops := s.loops[w := Idle])
    case Crash(w) => s.(loops := s.loops[w := Idle])
  }

  // ---------------------------------------------------------------- the loop's transactions are those steps

  /** The table is what the state says; the other parts of a state are the clock and the loops' own variables. */
  ghost predicate Shows(q: JobQueue, s: State)
    reads q
  {
    q.Valid() && s.rows == q.rows && s.nextId == q.nextId
  }

  /** worker.py:144-146. Nothing is claimed only when no loop could claim anything. */
  method ClaimJob(q: JobQueue, ghost s: State, ghost w: nat, now: real) returns (job: Option<nat>)
    requires Shows(q, s) && s.now == now && w in s.loops && s.loops[w].Idle?
    modifies q`rows
    ensures job.None? ==> Shows(q, s) && forall id :: !Enabled(s, Claim(w, id))
    ensures job.Some? ==> Enabled(s, Claim(w, job.value)) && Shows(q, Next(s, Claim(w, job.value)))
  {
    job := q.ClaimNext(now);
  }

  /** worker.py:61-72. */
  method ScheduleNextPoll(q: JobQueue, ghost s: State, ghost w: nat, repo: string, now: real)
    requires Shows(q, s) && s.now == now && Enabled(s, Schedule(w)) && repo == s.rows[s.loops[w].job].work.repo
    modifies q
    ensures Shows(q, Next(s, Schedule(w)))
  {
    var already, todo := false, q.rows.Keys;
    while todo != {}
      invariant todo <= q.rows.Keys && Shows(q, s)
      invariant already <==> exists id :: id in q.rows && id !in todo && PendingPoll(q.rows[id], repo)
    {
      var id :| id in todo;
      already := already || PendingPoll(q.rows[id], repo);
      todo := todo - {id};
    }
    if !already {
      var id := q.Enqueue(PollRepo(repo), Some(now + POLL_INTERVAL), now);
    }
  }

  /** worker.py:163-216: one branch per way a dispatch can end. */
  method WriteOutcome(q: JobQueue, ghost s: State, ghost w: nat, job: nat, attempts: nat, outcome: Outcome, now: real)
    requires Shows(q, s) && s.now == now && Enabled(s, Write(w))
    requires s.loops[w].job == job && s.loops[w].attempts == attempts && s.loops[w].outcome == outcome
    modifies q`rows
    ensures Shows(q, Next(s, Write(w)))
  {
    match outcome
    case Success => q.Complete(job, now);
    case Terminal => q.Fail(job, now, None);
    case Retry(delay) =>
      var retry := if attempts < MAX_ATTEMPTS then Some(delay) else None;
      q.Fail(job, now, retry);
  }

  // ---------------------------------------------------------------- mutual exclusion and the retry bound

  predicate AttemptsBounded(r: Row) {
    r.attempts <= if r.status == Failed then MAX_ATTEMPTS + 1 else MAX_ATTEMPTS
  }

  ghost predicate OnTime(s: State, l: Loop)
    requires !l.Idle? && l.job in s.rows
  {
    match l
    case Running(job, _, _) => s.now <= s.rows[job].updatedAt + JOB_TIMEOUT
    case Writing(job, _, _, _, endedAt) => endedAt <= s.rows[job].updatedAt + JOB_TIMEOUT && s.now <= endedAt + SLACK
  }

  /** A busy loop owns its row: still processing, with the attempt count it read, inside the lease. */
  ghost predicate Owns(s: State, l: Loop) {
    !l.Idle? ==> && l.job in s.rows && s.rows[l.job].status == Processing
                 && s.rows[l.job].attempts == l.attempts && OnTime(s, l)
  }

  ghost predicate OwnsAlone(s: State, w: nat, v: nat)
    requires w in s.loops && v in s.loops
  {
    w != v && !s.loops[w].Idle? && !s.loops[v].Idle? ==> s.loops[w].job != s.loops[v].job
  }

  ghost predicate Inv(s: State) {
    && (forall id | id in s.rows :: id < s.nextId && AttemptsBounded(s.rows[id]))
    && (forall w | w in s.loops :: Owns(s, s.loops[w]))
    && (forall w, v | w in s.loops && v in s.loops :: OwnsAlone(s, w, v))
  }

  ghost predicate Init(s: State) {
    && (forall id | id in s.rows :: id < s.nextId && AttemptsBounded(s.rows[id]))
    && (forall w | w in s.loops :: s.loops[w].Idle?)
  }

  ghost predicate Holds(s: State, w: nat, id: nat) {
    w in s.loops && !s.loops[w].Idle? && s.loops[w].job == id
  }

  /** The claim's lease test never selects an owned row: JOB_TIMEOUT plus the slack is the lease. */
  lemma OwnedIsNotClaimable(s: State, w: nat, id: nat)
    requires Inv(s) && Holds(s, w, id)
    ensures id in s.rows && s.rows[id].status == Processing && !Claimable(s.rows[id], s.now)
  {
    assert Owns(s, s.loops[w]);
  }

  /** Only loop `w` moved, staying on its row or letting go of it. */
  lemma LoopMoves(s: State, t: State, w: nat)
    requires Inv(s) && w in s.loops && w in t.loops && t == s.(loops := s.loops[w := t.loops[w]])
    requires Owns(s, t.loops[w])
    requires t.loops[w].Idle? || (!s.loops[w].Idle? && t.loops[w].job == s.loops[w].job)
    ensures Inv(t)
  {
    forall v | v in t.loops ensures Owns(t, t.loops[v]) {
      assert Owns(s, s.loops[v]);
    }
    forall u, v | u in t.loops && v in t.loops ensures OwnsAlone(t, u, v) {
      assert OwnsAlone(s, u, v);
    }
  }

  /** A row nobody holds changed, or a new one appeared. */
  lemma RowMoves(s: State, id: nat, r: Row, nextId: nat)
    requires Inv(s) && AttemptsBounded(r) && id < nextId && s.nextId <= nextId
    requires forall w :: !Holds(s, w, id)
    ensures Inv(s.(rows := s.rows[id := r], nextId := nextId))
  {
    var t := s.(rows := s.rows[id := r], nextId := nextId);
    forall v | v in t.loops ensures Owns(t, t.loops[v]) {
      assert Owns(s, s.loops[v]) && !Holds(s, v, id);
    }
    forall u, v | u in t.loops && v in t.loops ensures OwnsAlone(t, u, v) {
      assert OwnsAlone(s, u, v);
    }
  }

  lemma NobodyHolds(s: State, id: nat)
    requires Inv(s) && (id in s.rows ==> s.rows[id].status != Processing)
    ensures forall w :: !Holds(s, w, id)
  {
    forall w ensures !Holds(s, w, id) {
      if w in s.loops { assert Owns(s, s.loops[w]); }
    }
  }

  lemma ClaimKeepsInv(s: State, w: nat, id: nat)
    requires Inv(s) && Enabled(s, Claim(w, id))
    ensures Inv(Next(s, Claim(w, id)))
  {
    forall v ensures !Holds(s, v, id) {
      if Holds(s, v, id) { OwnedIsNotClaimable(s, v, id); }
    }
    var r := ClaimRow(s.rows[id], s.now);
    RowMoves(s, id, r, s.nextId);
    var m := s.(rows := s.rows[id := r]);
    var t := Next(s, Claim(w, id));
    forall v | v in t.loops ensures Owns(t, t.loops[v]) {
      assert Owns(m, m.loops[v]);
    }
    forall u, v | u in t.loops && v in t.loops ensures OwnsAlone(t, u, v) {
      assert OwnsAlone(m, u, v) && !Holds(s, u, id) && !Holds(s, v, id);
    }
  }

  lemma ScheduleKeepsInv(s: State, w: nat)
    requires Inv(s) && Enabled(s, Schedule(w))
    ensures Inv(Next(s, Schedule(w)))
  {
    var t := Next(s, Schedule(w));
    var m := s.(loops := t.loops);
    assert Owns(s, s.loops[w]);
    LoopMoves(s, m, w);
    if t.rows != s.rows {
      NobodyHolds(m, m.nextId);
      RowMoves(m, m.nextId, t.rows[m.nextId], m.nextId + 1);
    }
  }

  lemma WriteKeepsInv(s: State, w: nat)
    requires Inv(s) && Enabled(s, Write(w))
    ensures Inv(Next(s, Write(w)))
  {
    var l := s.loops[w];
    assert Owns(s, l);
    var m := s.(loops := s.loops[w := Idle]);
    LoopMoves(s, m, w);
    forall v ensures !Holds(m, v, l.job) {
      if v in s.loops { assert OwnsAlone(s, w, v); }
    }
    RowMoves(m, l.job, Settle(s.rows[l.job], l, s.now), m.nextId);
  }

  lemma TickKeepsInv(s: State, dt: real)
    requires Inv(s) && Enabled(s, Tick(dt))
    ensures Inv(Next(s, Tick(dt)))
  {
    var t := Next(s, Tick(dt));
    forall v | v in t.loops ensures Owns(t, t.loops[v]) {
      assert Owns(s, s.loops[v]) && KeepsTime(s, s.loops[v], t.now);
    }
    forall u, v | u in t.loops && v in t.loops ensures OwnsAlone(t, u, v) {
      assert OwnsAlone(s, u, v);
    }
  }

  lemma InvHolds(s: State, step: Step)
    requires Inv(s) && Enabled(s, step)
    ensures Inv(Next(s, step))
  {
    var t := Next(s, step);
    match step
    case Tick(dt) => TickKeepsInv(s, dt);
    case Enqueue(_, _) =>
      NobodyHolds(s, s.nextId);
      RowMoves(s, s.nextId, t.rows[s.nextId], s.nextId + 1);
    case Claim(w, id) => ClaimKeepsInv(s, w, id);
    case Schedule(w) => ScheduleKeepsInv(s, w);
    case ScheduleFails(w) => assert Owns(s, s.loops[w]); LoopMoves(s, t, w);
    case End(w, _) => assert Owns(s, s.loops[w]); LoopMoves(s, t, w);
    case Write(w) => WriteKeepsInv(s, w);
    case Crash(w) => LoopMoves(s, t, w);
  }

  /** Finished rows never change, although every outcome write is unconditional. */
  lemma FinishedRowsAreFrozen(s: State, step: Step, id: nat)
    requires Inv(s) && Enabled(s, step) && id in s.rows && !s.rows[id].Live()
    ensures id in Next(s, step).rows && Next(s, step).rows[id] == s.rows[id]
  {
    if step.Write? { assert Owns(s, s.loops[step.w]); }
  }

  // ---------------------------------------------------------------- runs

  /** `trace[i+1]` follows from `trace[i]` by `steps[i]`, starting with every loop idle. */
  ghost predicate IsRun(trace: seq<State>, steps: seq<Step>) {
    && |trace| == |steps| + 1 && Init(trace[0])
    && forall i | 0 <= i < |steps| :: Enabled(trace[i], steps[i]) && trace[i + 1] == Next(trace[i], steps[i])
  }

  lemma {:induction false} RunKeepsInv(trace: seq<State>, steps: seq<Step>, i: nat)
    requires IsRun(trace, steps) && i < |trace|
    ensures Inv(trace[i])
  {
    if i > 0 {
      RunKeepsInv(trace, steps, i - 1);
      InvHolds(trace[i - 1], steps[i - 1]);
    }
  }

  /** In every reachable state no job is dispatched by two loops at once. */
  lemma MutualExclusion(trace: seq<State>, steps: seq<Step>, i: nat, w: nat, v: nat, id: nat)
    requires IsRun(trace, steps) && i < |trace| && Holds(trace[i], w, id) && Holds(trace[i], v, id)
    ensures w == v
  {
    RunKeepsInv(trace, steps, i);
    assert OwnsAlone(trace[i], w, v);
  }

  lemma RetryBound(trace: seq<State>, steps: seq<Step>, i: nat, id: nat)
    requires IsRun(trace, steps) && i < |trace| && id in trace[i].rows
    ensures trace[i].rows[id].attempts <= MAX_ATTEMPTS + 1
    ensures trace[i].rows[id].Live() ==> trace[i].rows[id].attempts <= MAX_ATTEMPTS
  {
    RunKeepsInv(trace, steps, i);
  }

  lemma {:induction false} FinishedForever(trace: seq<State>, steps: seq<Step>, i: nat, j: nat, id: nat)
    requires IsRun(trace, steps) && i <= j < |trace| && id in trace[i].rows && !trace[i].rows[id].Live()
    ensures id in trace[j].rows && trace[j].rows[id] == trace[i].rows[id]
    decreases j
  {
    if i < j {
      FinishedForever(trace, steps, i, j - 1, id);
      RunKeepsInv(trace, steps, j - 1);
      FinishedRowsAreFrozen(trace[j - 1], steps[j - 1], id);
    }
  }

  // ---------------------------------------------------------------- what the steps write, column by column

  /** What the system assumes: a loop may die at any time and anybody may enqueue; time may pass as long as each
      dispatch stays within ten minutes of its claim and each write within five of the end of its dispatch. */
  lemma NothingElseIsAssumed(s: State, dt: real)
    ensures forall w | w in s.loops :: Enabled(s, Crash(w))
    ensures forall work, runAt :: Enabled(s, Enqueue(work, runAt))
    ensures forall w | w in s.loops && s.loops[w].Writing? :: Enabled(s, Write(w))
    ensures forall w, outcome | w in s.loops && s.loops[w].Running? ::
              Enabled(s, End(w, outcome)) <==>
                !(s.loops[w].job in s.rows && s.rows[s.loops[w].job].work.PollRepo? && !s.loops[w].scheduled)
    ensures Enabled(s, Tick(dt)) <==>
              && dt >= 0.0
              && (forall w | w in s.loops && s.loops[w].Running? && s.loops[w].job in s.rows ::
                    s.now + dt <= s.rows[s.loops[w].job].updatedAt + 600.0)
              && (forall w | w in s.loops && s.loops[w].Writing? :: s.now + dt <= s.loops[w].endedAt + 300.0)
  {
    if Enabled(s, Tick(dt)) {
      forall w | w in s.loops ensures KeepsTime(s, s.loops[w], s.now + dt) {}
    }
  }

  /** A claim keeps all but the status and its time, and remembers the attempts it read. */
  lemma ClaimWrites(s: State, w: nat, id: nat)
    requires Enabled(s, Claim(w, id))
    ensures var r, t := s.rows[id], Next(s, Claim(w, id));
            && t.rows == s.rows[id := Row(r.work, Processing, r.attempts, r.runAt, s.now)]
            && t.loops == s.loops[w := Running(id, r.attempts, false)]
            && (r.status == Pending ==> r.runAt <= s.now) && (r.status == Processing ==> r.updatedAt + 900.0 < s.now)
            && (r.status == Pending || r.status == Processing)
  {
    ClaimableMeans(s.rows[id], s.now);
  }

  /** A success keeps the attempts; any other outcome counts one, and waits for its delay unless the loop read five. */
  lemma WriteLeaves(s: State, w: nat)
    requires Inv(s) && Enabled(s, Write(w))
    ensures var l := s.loops[w]; var t := Next(s, Write(w));
            && l.job in s.rows && t.loops == s.loops[w := Idle]
            && var r := s.rows[l.job];
            t.rows == s.rows[l.job := match l.outcome
                                      case Success => Row(r.work, Done, r.attempts, r.runAt, s.now)
                                      case Terminal => Row(r.work, Failed, r.attempts + 1, r.runAt, s.now)
                                      case Retry(delay) =>
                                        if r.attempts < 5 then Row(r.work, Pending, r.attempts + 1, s.now + delay, s.now)
                                        else Row(r.work, Failed, r.attempts + 1, r.runAt, s.now)]
  {
    assert Owns(s, s.loops[w]);
  }

  /** The follow-up poll of the same repository is due half an hour later, and added only when none is pending. */
  lemma ScheduleAdds(s: State, w: nat)
    requires Enabled(s, Schedule(w))
    ensures var repo := s.rows[s.loops[w].job].work.repo; var t := Next(s, Schedule(w));
            if exists id :: id in s.rows && s.rows[id].status == Pending && s.rows[id].work == PollRepo(repo)
            then t.rows == s.rows && t.nextId == s.nextId
            else t.rows == s.rows[s.nextId := Row(PollRepo(repo), Pending, 0, s.now + 1800.0, s.now)] && t.nextId == s.nextId + 1
  {
    var repo := s.rows[s.loops[w].job].work.repo;
    if id :| id in s.rows && s.rows[id].status == Pending && s.rows[id].work == PollRepo(repo) {
      assert PendingPoll(s.rows[id], repo);
    } else {
      assert forall id | id in s.rows :: !PendingPoll(s.rows[id], repo);
    }
  }

  /** Anybody's enqueue adds a fresh row and does nothing else. */
  lemma EnqueueAdds(s: State, work: Work, runAt: real)
    ensures Next(s, Enqueue(work, runAt)) ==
            State(s.rows[s.nextId := Row(work, Pending, 0, runAt, s.now)], s.nextId + 1, s.now, s.loops)
  {
  }

  /** A scheduling transaction that fails makes the poll's outcome a retry after a minute. */
  lemma FailedScheduleRetries(s: State, w: nat)
    requires Enabled(s, ScheduleFails(w))
    ensures var l := s.loops[w];
            Next(s, ScheduleFails(w)) == s.(loops := s.loops[w := Writing(l.job, l.attempts, false, Retry(60.0), s.now)])
  {
  }

  /** The write of a dispatch of `id` that did not succeed. */
  ghost predicate FailingWrite(s: State, step: Step, id: nat) {
    step.Write? && Enabled(s, step) && s.loops[step.w].job == id && !s.loops[step.w].outcome.Success?
  }

  ghost function FailingWrites(trace: seq<State>, steps: seq<Step>, id: nat, i: nat, j: nat): nat
    requires i <= j <= |steps| && |trace| == |steps| + 1
    decreases j
  {
    if i == j then 0
    else FailingWrites(trace, steps, id, i, j - 1) + if FailingWrite(trace[j - 1], steps[j - 1], id) then 1 else 0
  }

  lemma StepCountsAttempt(s: State, step: Step, id: nat)
    requires Inv(s) && Enabled(s, step) && id in s.rows
    ensures id in Next(s, step).rows
    ensures Next(s, step).rows[id].attempts == s.rows[id].attempts + if FailingWrite(s, step, id) then 1 else 0
  {
    if step.Write? { WriteLeaves(s, step.w); }
  }

  /** Over any stretch of any run, a row's attempts grow by exactly the number of failing writes on it. */
  lemma {:induction false} AttemptsCountFailures(trace: seq<State>, steps: seq<Step>, id: nat, i: nat, j: nat)
    requires IsRun(trace, steps) && i <= j < |trace| && id in trace[i].rows
    ensures id in trace[j].rows
    ensures trace[j].rows[id].attempts == trace[i].rows[id].attempts + FailingWrites(trace, steps, id, i, j)
    decreases j
  {
    if i < j {
      AttemptsCountFailures(trace, steps, id, i, j - 1);
      RunKeepsInv(trace, steps, j - 1);
      StepCountsAttempt(trace[j - 1], steps[j - 1], id);
    }
  }

  /** No job fails more than six times: a row enqueued without attempts sees at most that many failing writes. */
  lemma FailuresAreBounded(trace: seq<State>, steps: seq<Step>, id: nat, i: nat, j: nat)
    requires IsRun(trace, steps) && i <= j < |trace| && id in trace[i].rows && trace[i].rows[id].attempts == 0
    ensures FailingWrites(trace, steps, id, i, j) <= 6
    ensures id in trace[j].rows && (FailingWrites(trace, steps, id, i, j) == 6 ==> trace[j].rows[id].status == Failed)
  {
    AttemptsCountFailures(trace, steps, id, i, j);
    RunKeepsInv(trace, steps, j);
  }

  // ---------------------------------------------------------------- polling never stops by itself

  ghost predicate LivePoll(s: State, repo: string, id: nat) {
    id in s.rows && s.rows[id].Live() && s.rows[id].work == PollRepo(repo)
  }

  ghost predicate Polled(s: State, repo: string) {
    exists id :: LivePoll(s, repo, id)
  }

  /** A live poll whose follow-up is still ahead of it: nobody holding it has scheduled yet. */
  ghost predicate Unspent(s: State, repo: string, id: nat) {
    LivePoll(s, repo, id) && forall w | Holds(s, w, id) :: !s.loops[w].scheduled
  }

  /** Every repository that is polled at all has a poll that will still schedule its successor. */
  ghost predicate Continues(s: State, repo: string) {
    Polled(s, repo) ==> exists id :: Unspent(s, repo, id)
  }

  /** The one way out: the follow-up could not be scheduled on the attempt that may no longer be retried. */
  ghost predicate Abandons(s: State, step: Step, repo: string) {
    && step.Write? && Enabled(s, step) && LivePoll(s, repo, s.loops[step.w].job)
    && !s.loops[step.w].scheduled && !s.loops[step.w].outcome.Success?
    && (s.loops[step.w].outcome.Retry? ==> s.loops[step.w].attempts >= MAX_ATTEMPTS)
  }

  /** A poll whose loop reached the write unscheduled got there through a failed scheduling transaction. */
  ghost predicate UnscheduledWritesRetry(s: State) {
    forall w | w in s.loops && s.loops[w].Writing? && IsPoll(s.rows, s.loops[w].job) && !s.loops[w].scheduled ::
      s.loops[w].outcome == Retry(RETRY_DELAY)
  }

  lemma UnscheduledWritesRetryHolds(s: State, step: Step)
    requires Inv(s) && Enabled(s, step) && UnscheduledWritesRetry(s)
    ensures UnscheduledWritesRetry(Next(s, step))
  {
    var t := Next(s, step);
    forall w | w in t.loops && t.loops[w].Writing? && IsPoll(t.rows, t.loops[w].job) && !t.loops[w].scheduled
      ensures t.loops[w].outcome == Retry(RETRY_DELAY)
    {
      if w in s.loops { assert Owns(s, s.loops[w]); }
    }
  }

  lemma UnspentSurvives(s: State, step: Step, repo: string, id: nat)
    requires Inv(s) && Enabled(s, step) && UnscheduledWritesRetry(s) && Unspent(s, repo, id)
    requires !Abandons(s, step, repo) && !step.Schedule?
    ensures Unspent(Next(s, step), repo, id)
  {
    var t := Next(s, step);
    assert step.Write? ==> Owns(s, s.loops[step.w]);
    assert step.Claim? ==> forall w :: Holds(s, w, step.id) ==> false by {
      if step.Claim? {
        forall w ensures !Holds(s, w, step.id) { if Holds(s, w, step.id) { OwnedIsNotClaimable(s, w, step.id); } }
      }
    }
    forall w | Holds(t, w, id) ensures !t.loops[w].scheduled {
      if Holds(s, w, id) { assert !s.loops[w].scheduled; }
    }
  }

  lemma ScheduleLeavesUnspent(s: State, w: nat)
    requires Inv(s) && Enabled(s, Schedule(w))
    ensures exists id :: Unspent(Next(s, Schedule(w)), s.rows[s.loops[w].job].work.repo, id)
  {
    var t := Next(s, Schedule(w));
    var repo := s.rows[s.loops[w].job].work.repo;
    var id := s.nextId;
    if other :| other in s.rows && PendingPoll(s.rows[other], repo) { id := other; }
    assert id in t.rows && PendingPoll(t.rows[id], repo);
    ScheduleKeepsInv(s, w);
    NobodyHolds(t, id);
    assert Unspent(t, repo, id);
  }

  lemma ContinuesHolds(s: State, step: Step, repo: string)
    requires Inv(s) && Enabled(s, step) && UnscheduledWritesRetry(s) && Continues(s, repo)
    requires !Abandons(s, step, repo)
    ensures Continues(Next(s, step), repo)
    ensures Polled(s, repo) ==> Polled(Next(s, step), repo)
  {
    var t := Next(s, step);
    if step.Schedule? && s.rows[s.loops[step.w].job].work.repo == repo {
      ScheduleLeavesUnspent(s, step.w);
    } else if Polled(s, repo) {
      var id :| Unspent(s, repo, id);
      if step.Schedule? {
        OtherRepoUnspent(s, step.w, repo, id);
      } else {
        UnspentSurvives(s, step, repo, id);
      }
    } else if Polled(t, repo) {
      var id :| LivePoll(t, repo, id);
      NewPollIsEnqueued(s, step, repo, id);
    }
  }

  lemma OtherRepoUnspent(s: State, w: nat, repo: string, id: nat)
    requires Inv(s) && Enabled(s, Schedule(w)) && Unspent(s, repo, id)
    requires s.rows[s.loops[w].job].work.repo != repo
    ensures Unspent(Next(s, Schedule(w)), repo, id)
  {
    var t := Next(s, Schedule(w));
    forall v | Holds(t, v, id) ensures !t.loops[v].scheduled {
      assert Holds(s, v, id);
    }
  }

  lemma NewPollIsEnqueued(s: State, step: Step, repo: string, id: nat)
    requires Inv(s) && Enabled(s, step) && !Polled(s, repo) && LivePoll(Next(s, step), repo, id)
    requires step.Schedule? ==> s.rows[s.loops[step.w].job].work.repo != repo
    ensures Unspent(Next(s, step), repo, id)
  {
    assert !LivePoll(s, repo, id);
    assert step.Write? ==> Owns(s, s.loops[step.w]);
    NobodyHolds(s, s.nextId);
  }

  /** While every polled repository still has an unspent poll, only abandoning the last live one ends its polling. */
  lemma StepStopsPolling(s: State, step: Step, repo: string)
    requires Inv(s) && Enabled(s, step) && UnscheduledWritesRetry(s) && Continues(s, repo) && Polled(s, repo)
    ensures !Polled(Next(s, step), repo) <==>
              Abandons(s, step, repo) && forall id | LivePoll(s, repo, id) :: id == s.loops[step.w].job
  {
    if Abandons(s, step, repo) {
      var l, t := s.loops[step.w], Next(s, step);
      assert Owns(s, l);
      if id :| LivePoll(s, repo, id) && id != l.job {
        assert LivePoll(t, repo, id);
      } else {
        forall id ensures !LivePoll(t, repo, id) { assert LivePoll(t, repo, id) ==> LivePoll(s, repo, id); }
      }
    } else {
      ContinuesHolds(s, step, repo);
    }
  }

  lemma InitContinues(s: State, repo: string)
    requires Init(s)
    ensures Inv(s) && Continues(s, repo) && UnscheduledWritesRetry(s)
  {
    if id :| LivePoll(s, repo, id) { assert Unspent(s, repo, id); }
  }

  lemma {:induction false} RunContinues(trace: seq<State>, steps: seq<Step>, repo: string, i: nat)
    requires IsRun(trace, steps) && i < |trace|
    requires forall k | 0 <= k < i :: !Abandons(trace[k], steps[k], repo)
    ensures Inv(trace[i]) && Continues(trace[i], repo) && UnscheduledWritesRetry(trace[i])
  {
    if i == 0 {
      InitContinues(trace[0], repo);
    } else {
      RunContinues(trace, steps, repo, i - 1);
      InvHolds(trace[i - 1], steps[i - 1]);
      UnscheduledWritesRetryHolds(trace[i - 1], steps[i - 1]);
      ContinuesHolds(trace[i - 1], steps[i - 1], repo);
    }
  }

  /** Once polled, always polled: through success, retry, terminal failure, timeout and crash. */
  lemma {:induction false} PollContinuity(trace: seq<State>, steps: seq<Step>, repo: string, i: nat, j: nat)
    requires IsRun(trace, steps) && i <= j < |trace| && Polled(trace[i], repo)
    requires forall k | 0 <= k < j :: !Abandons(trace[k], steps[k], repo)
    ensures Polled(trace[j], repo)
    decreases j
  {
    if i < j {
      PollContinuity(trace, steps, repo, i, j - 1);
      RunContinues(trace, steps, repo, j - 1);
      ContinuesHolds(trace[j - 1], steps[j - 1], repo);
    }
  }

  /** As long as no poll of a repository was abandoned before, its polling stops in exactly one way. */
  lemma PollingStopsOnlyByAbandonment(trace: seq<State>, steps: seq<Step>, repo: string, i: nat)
    requires IsRun(trace, steps) && i < |steps| && Polled(trace[i], repo)
    requires forall k | 0 <= k < i :: !Abandons(trace[k], steps[k], repo)
    ensures !Polled(trace[i + 1], repo) <==>
              && Abandons(trace[i], steps[i], repo)
              && forall id | LivePoll(trace[i], repo, id) :: id == trace[i].loops[steps[i].w].job
  {
    RunContinues(trace, steps, repo, i);
    StepStopsPolling(trace[i], steps[i], repo);
  }

  /** Where no scheduling transaction failed, a poll is only written once its follow-up is in place. */
  ghost predicate WritesAreScheduled(s: State) {
    forall w | w in s.loops && s.loops[w].Writing? && IsPoll(s.rows, s.loops[w].job) :: s.loops[w].scheduled
  }

  lemma WritesAreScheduledHolds(s: State, step: Step)
    requires Inv(s) && Enabled(s, step) && !step.ScheduleFails? && WritesAreScheduled(s)
    ensures WritesAreScheduled(Next(s, step))
  {
    var t := Next(s, step);
    forall w | w in t.loops && t.loops[w].Writing? && IsPoll(t.rows, t.loops[w].job) ensures t.loops[w].scheduled {
      assert w in s.loops && Owns(s, s.loops[w]);
    }
  }

  lemma {:induction false} RunSchedules(trace: seq<State>, steps: seq<Step>, i: nat)
    requires IsRun(trace, steps) && i < |trace| && forall k | 0 <= k < i :: !steps[k].ScheduleFails?
    ensures WritesAreScheduled(trace[i])
    decreases i
  {
    if i > 0 {
      RunSchedules(trace, steps, i - 1);
      RunKeepsInv(trace, steps, i - 1);
      WritesAreScheduledHolds(trace[i - 1], steps[i - 1]);
    }
  }

  /** If every scheduling transaction succeeds, a repository that is polled once is polled ever after. */
  lemma ScheduledPollsContinue(trace: seq<State>, steps: seq<Step>, repo: string, i: nat, j: nat)
    requires IsRun(trace, steps) && i <= j < |trace| && Polled(trace[i], repo)
    requires forall k | 0 <= k < j :: !steps[k].ScheduleFails?
    ensures Polled(trace[j], repo)
  {
    forall k | 0 <= k < j ensures !Abandons(trace[k], steps[k], repo) { RunSchedules(trace, steps, k); }
    PollContinuity(trace, steps, repo, i, j);
  }

  /** A repository that is no longer polled had a poll abandoned, at that step or earlier. */
  lemma LostPollWasAbandoned(trace: seq<State>, steps: seq<Step>, repo: string, i: nat, j: nat) returns (k: nat)
    requires IsRun(trace, steps) && i <= j < |trace| && Polled(trace[i], repo) && !Polled(trace[j], repo)
    ensures k < j && Abandons(trace[k], steps[k], repo)
  {
    if forall n | 0 <= n < j :: !Abandons(trace[n], steps[n], repo) {
      PollContinuity(trace, steps, repo, i, j);
    }
    k :| 0 <= k < j && Abandons(trace[k], steps[k], repo);
  }

  /** Abandonment does happen: a sixth attempt whose scheduling transaction fails ends the polling. */
  lemma PollCanBeAbandoned() returns (trace: seq<State>, steps: seq<Step>)
    ensures IsRun(trace, steps) && |trace| == 4
    ensures Polled(trace[0], "r") && !Polled(trace[3], "r")
    ensures steps == [Claim(0, 0), ScheduleFails(0), Write(0)]
  {
    var s0 := State(map[0 := Row(PollRepo("r"), Pending, MAX_ATTEMPTS, 0.0, 0.0)], 1, 0.0, map[0 := Idle]);
    steps := [Claim(0, 0), ScheduleFails(0), Write(0)];
    assert LivePoll(s0, "r", 0);
    var s1 := Next(s0, steps[0]);
    var s2 := Next(s1, steps[1]);
    var s3 := Next(s2, steps[2]);
    assert s3.rows.Keys == {0} && s3.rows[0].status == Failed;
    trace := [s0, s1, s2, s3];
  }

  /** Two polls of "r" and two loops: the state after each step of the run below. */
  ghost function TwoPolls(n: nat): State {
    var poll := Row(PollRepo("r"), Pending, MAX_ATTEMPTS, 0.0, 0.0);
    var other := Row(PollRepo("r"), Pending, 0, 0.0, 0.0);
    var dropped := FailRow(ClaimRow(poll, 0.0), 0.0, None);
    if n == 0 then Two(poll, other, Idle, Idle, 0.0)
    else if n == 1 then Two(poll, ClaimRow(other, 0.0), Idle, Running(1, 0, false), 0.0)
    else if n == 2 then Two(poll, ClaimRow(other, 0.0), Idle, Running(1, 0, true), 0.0)
    else if n == 3 then
      Two(ClaimRow(poll, 0.0), ClaimRow(other, 0.0), Running(0, MAX_ATTEMPTS, false), Running(1, 0, true), 0.0)
    else if n == 4 then
      Two(ClaimRow(poll, 0.0), ClaimRow(other, 0.0), Writing(0, MAX_ATTEMPTS, false, Retry(RETRY_DELAY), 0.0),
          Running(1, 0, true), 0.0)
    else if n == 5 then Two(dropped, ClaimRow(other, 0.0), Idle, Running(1, 0, true), 0.0)
    else if n == 6 then Two(dropped, ClaimRow(other, 0.0), Idle, Writing(1, 0, true, Success, 0.0), 0.0)
    else if n == 7 then Two(dropped, ClaimRow(other, 0.0), Idle, Writing(1, 0, true, Success, 0.0), 1.0)
    else Two(dropped, CompleteRow(ClaimRow(other, 0.0), 1.0), Idle, Idle, 1.0)
  }

  ghost function Two(r0: Row, r1: Row, l0: Loop, l1: Loop, now: real): State {
    State(map[0 := r0, 1 := r1], 2, now, map[0 := l0, 1 := l1])
  }

  function TwoPollsStep(n: nat): Step {
    if n == 0 then Claim(1, 1) else if n == 1 then Schedule(1) else if n == 2 then Claim(0, 0)
    else if n == 3 then ScheduleFails(0) else if n == 4 then Write(0) else if n == 5 then End(1, Success)
    else if n == 6 then Tick(1.0) else Write(1)
  }

  lemma TwoPollsBegin(n: nat)
    requires n < 4
    ensures Enabled(TwoPolls(n), TwoPollsStep(n)) && TwoPolls(n + 1) == Next(TwoPolls(n), TwoPollsStep(n))
  {
    var s := TwoPolls(n);
    if n == 1 { assert PendingPoll(s.rows[0], "r"); }
    assert TwoPolls(n + 1).rows == Next(s, TwoPollsStep(n)).rows;
    assert TwoPolls(n + 1).loops == Next(s, TwoPollsStep(n)).loops;
  }

  lemma TwoPollsEnd(n: nat)
    requires 4 <= n < 8
    ensures Enabled(TwoPolls(n), TwoPollsStep(n)) && TwoPolls(n + 1) == Next(TwoPolls(n), TwoPollsStep(n))
  {
    assert TwoPolls(n + 1).rows == Next(TwoPolls(n), TwoPollsStep(n)).rows;
    assert TwoPolls(n + 1).loops == Next(TwoPolls(n), TwoPollsStep(n)).loops;
  }

  lemma TwoPollsEndpoints()
    ensures Init(TwoPolls(0)) && Polled(TwoPolls(7), "r") && !Polled(TwoPolls(8), "r")
    ensures Abandons(TwoPolls(4), Write(0), "r") && !Abandons(TwoPolls(7), Write(1), "r")
    ensures 1 in TwoPolls(7).loops && TwoPolls(7).loops[1] == Writing(1, 0, true, Success, 0.0)
  {
    assert LivePoll(TwoPolls(7), "r", 1) && LivePoll(TwoPolls(4), "r", 0);
    assert TwoPolls(8).rows.Keys == {0, 1};
    TwoPollsEnd(4);
  }

  /** The end may come after the abandonment: here poll 1 counted on poll 0 to follow it, poll 0 is abandoned,
      and polling ends when poll 1 succeeds. */
  lemma PollingCanEndAfterAbandonment() returns (trace: seq<State>, steps: seq<Step>)
    ensures IsRun(trace, steps) && |steps| == 8
    ensures Polled(trace[7], "r") && !Polled(trace[8], "r")
    ensures steps[4] == Write(0) && Abandons(trace[4], steps[4], "r")
    ensures steps[7] == Write(1) && trace[7].loops[1] == Writing(1, 0, true, Success, 0.0)
    ensures !Abandons(trace[7], steps[7], "r")
  {
    TwoPollsEndpoints();
    hide TwoPolls, Enabled, Next, Init, Polled, Abandons;
    trace, steps := seq(9, n requires 0 <= n < 9 => TwoPolls(n)), seq(8, n requires 0 <= n < 8 => TwoPollsStep(n));
    forall n | 0 <= n < 8 ensures Enabled(trace[n], steps[n]) && trace[n + 1] == Next(trace[n], steps[n]) {
      if n < 4 { TwoPollsBegin(n); } else { TwoPollsEnd(n); }
    }
  }

  // ---------------------------------------------------------------- polls do not fan out

  ghost function LivePolls(s: State, repo: string): set<nat> {
    set id | id in s.rows && LivePoll(s, repo, id)
  }

  ghost predicate ProcessingIsHeld(s: State, repo: string) {
    forall id | LivePoll(s, repo, id) && s.rows[id].status == Processing :: exists w :: Holds(s, w, id)
  }

  /** Crash-free, and nobody else enqueues polls of this repository. */
  ghost predicate SelfScheduling(step: Step, repo: string) {
    !step.Crash? && (step.Enqueue? ==> step.work != PollRepo(repo))
  }

  ghost predicate Bounded(s: State, repo: string) {
    ProcessingIsHeld(s, repo) && |LivePolls(s, repo)| <= |s.loops| + 1
  }

  lemma HeldSetIsSmall(s: State, held: set<nat>)
    requires Inv(s) && forall id | id in held :: exists w :: Holds(s, w, id)
    ensures |held| <= |s.loops|
  {
    var busy := set w | w in s.loops && !s.loops[w].Idle? && s.loops[w].job in held;
    ImageIsSmall(s, busy, held);
    SubsetSize(busy, s.loops.Keys);
  }

  lemma {:induction false} ImageIsSmall(s: State, busy: set<nat>, held: set<nat>)
    requires busy <= s.loops.Keys
    requires forall id | id in held :: exists w :: w in busy && Holds(s, w, id)
    ensures |held| <= |busy|
    decreases |held|
  {
    if held != {} {
      var id :| id in held;
      var w :| w in busy && Holds(s, w, id);
      forall o | o in held - {id} ensures exists v :: v in busy - {w} && Holds(s, v, o) {
        var v :| v in busy && Holds(s, v, o);
        assert v in busy - {w};
      }
      ImageIsSmall(s, busy - {w}, held - {id});
    }
  }

  lemma {:induction false} SubsetSize(a: set<nat>, b: set<nat>)
    requires a <= b
    ensures |a| <= |b|
    decreases |a|
  {
    if a != {} {
      var x :| x in a;
      SubsetSize(a - {x}, b - {x});
    }
  }

  lemma BoundedHolds(s: State, step: Step, repo: string)
    requires Inv(s) && Enabled(s, step) && SelfScheduling(step, repo) && Bounded(s, repo)
    ensures Bounded(Next(s, step), repo)
  {
    var t := Next(s, step);
    HeldStaysHeld(s, step, repo);
    assert t.loops.Keys == s.loops.Keys;
    if step.Schedule? && t.rows != s.rows && s.rows[s.loops[step.w].job].work.repo == repo {
      forall id | id in LivePolls(s, repo) ensures exists w :: Holds(s, w, id) {
        assert LivePoll(s, repo, id) && !PendingPoll(s.rows[id], repo);
      }
      HeldSetIsSmall(s, LivePolls(s, repo));
      assert LivePolls(t, repo) == LivePolls(s, repo) + {s.nextId};
    } else {
      forall id | id in LivePolls(t, repo) ensures id in LivePolls(s, repo) {
        if step.Write? { assert Owns(s, s.loops[step.w]); }
      }
      SubsetSize(LivePolls(t, repo), LivePolls(s, repo));
    }
  }

  lemma HeldStaysHeld(s: State, step: Step, repo: string)
    requires Inv(s) && Enabled(s, step) && SelfScheduling(step, repo) && ProcessingIsHeld(s, repo)
    ensures ProcessingIsHeld(Next(s, step), repo)
  {
    var t := Next(s, step);
    forall id | LivePoll(t, repo, id) && t.rows[id].status == Processing ensures exists w :: Holds(t, w, id) {
      if step.Claim? && step.id == id {
        assert Holds(t, step.w, id);
      } else {
        if step.Write? { assert Owns(s, s.loops[step.w]); }
        assert LivePoll(s, repo, id) && s.rows[id].status == Processing;
        var w :| Holds(s, w, id);
        assert Holds(t, w, id);
      }
    }
  }

  /** With W loops, no crash and no outside enqueue, a repository never has more than W + 1 live polls. */
  lemma {:induction false} PollsDoNotFanOut(trace: seq<State>, steps: seq<Step>, repo: string, i: nat)
    requires IsRun(trace, steps) && i < |trace| && Bounded(trace[0], repo)
    requires forall k | 0 <= k < i :: SelfScheduling(steps[k], repo)
    ensures Bounded(trace[i], repo) && |trace[i].loops| == |trace[0].loops|
    ensures |LivePolls(trace[i], repo)| <= |trace[0].loops| + 1
  {
    if i > 0 {
      PollsDoNotFanOut(trace, steps, repo, i - 1);
      RunKeepsInv(trace, steps, i - 1);
      BoundedHolds(trace[i - 1], steps[i - 1], repo);
      assert trace[i].loops.Keys == trace[i - 1].loops.Keys;
      assert |trace[i].loops| == |trace[i].loops.Keys| && |trace[i - 1].loops| == |trace[i - 1].loops.Keys|;
    }
  }
}
