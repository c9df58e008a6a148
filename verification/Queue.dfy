/** The ingest job table (src/cadence/queue.py). One transaction is one atomic method; times are seconds. */
module Queue {
  import opened Common

  const LEASE: real := 900.0

  /** A well-formed poll names its repository; every other payload schedules nothing when it ends. */
  datatype Work = PollRepo(repo: string) | OtherWork

  datatype Status = Pending | Processing | Done | Failed

  datatype Row = Row(work: Work, status: Status, attempts: nat, runAt: real, updatedAt: real)
  {
    predicate Live() { status == Pending || status == Processing }
  }

  type Table = map<nat, Row>

  // ---------------------------------------------------------------- the effect of each statement

  predicate Due(r: Row, now: real) { r.status == Pending && r.runAt <= now }

  predicate Expired(r: Row, now: real) { r.status == Processing && r.updatedAt < now - LEASE }

  predicate Claimable(r: Row, now: real) { Due(r, now) || Expired(r, now) }

  /** What `--until-empty` waits for. */
  predicate InFlight(r: Row, now: real) {
    Due(r, now) || (r.status == Processing && r.updatedAt >= now - LEASE)
  }

  function NewRow(work: Work, runAt: real, now: real): Row { Row(work, Pending, 0, runAt, now) }

  function ClaimRow(r: Row, now: real): Row { r.(status := Processing, updatedAt := now) }

  function CompleteRow(r: Row, now: real): Row { r.(status := Done, updatedAt := now) }

  /** `fail`: a delay sends the row back to pending, none is terminal. */
  function FailRow(r: Row, now: real, retryIn: Option<real>): Row {
    match retryIn
    case Some(delay) => r.(status := Pending, attempts := r.attempts + 1, runAt := now + delay, updatedAt := now)
    case None => r.(status := Failed, attempts := r.attempts + 1, updatedAt := now)
  }

  // ---------------------------------------------------------------- the table

  class JobQueue {
    var rows: Table
    var nextId: nat

    ghost predicate Valid()
      reads this
    {
      forall id | id in rows :: id < nextId
    }

    constructor ()
      ensures Valid() && rows == map[]
    {
      rows, nextId := map[], 0;
    }

    method Enqueue(work: Work, runAt: Option<real>, now: real) returns (id: nat)
      requires Valid()
      modifies this
      ensures Valid() && id !in old(rows) && id == old(nextId) && nextId == old(nextId) + 1
      ensures rows == old(rows)[id := Row(work, Pending, 0, if runAt.Some? then runAt.value else now, now)]
    {
      id := nextId;
      rows := rows[id := NewRow(work, if runAt.Some? then runAt.value else now, now)];
      nextId := nextId + 1;
    }

    /** The earliest claimable row becomes this caller's; nothing else changes. It was due, or its lease of fifteen
        minutes had run out. */
    method ClaimNext(now: real) returns (claimed: Option<nat>)
      requires Valid()
      modifies this`rows
      ensures Valid()
      ensures claimed.None? ==> rows == old(rows) && forall id | id in rows :: !Claimable(rows[id], now)
      ensures claimed.Some? ==>
                && claimed.value in old(rows) && Claimable(old(rows)[claimed.value], now)
                && (forall id | id in old(rows) && Claimable(old(rows)[id], now) ::
                      old(rows)[claimed.value].runAt <= old(rows)[id].runAt)
                && var r := old(rows)[claimed.value];
                && ((r.status == Pending && r.runAt <= now) || (r.status == Processing && r.updatedAt < now - 900.0))
                && rows == old(rows)[claimed.value := Row(r.work, Processing, r.attempts, r.runAt, now)]
    {
      claimed := None;
      var todo := rows.Keys;
      while todo != {}
        invariant todo <= rows.Keys && rows == old(rows)
        invariant claimed.None? ==> forall id | id in rows && id !in todo :: !Claimable(rows[id], now)
        invariant claimed.Some? ==>
                    && claimed.value in rows && Claimable(rows[claimed.value], now)
                    && forall id | id in rows && id !in todo && Claimable(rows[id], now) ::
                         rows[claimed.value].runAt <= rows[id].runAt
      {
        var id :| id in todo;
        if Claimable(rows[id], now) && (claimed.None? || rows[id].runAt < rows[claimed.value].runAt) {
          claimed := Some(id);
        }
        todo := todo - {id};
      }
      if claimed.Some? {
        rows := rows[claimed.value := ClaimRow(rows[claimed.value], now)];
      }
    }

    /** An unconditional update by id: a missing row is left alone. */
    method Complete(id: nat, now: real)
      requires Valid()
      modifies this`rows
      ensures Valid()
      ensures id !in old(rows) ==> rows == old(rows)
      ensures id in old(rows) ==>
                var r := old(rows)[id]; rows == old(rows)[id := Row(r.work, Done, r.attempts, r.runAt, now)]
    {
      if id in rows {
        rows := rows[id := CompleteRow(rows[id], now)];
      }
    }

    /** Every failure counts one attempt; a delay sends the row back to pending until it has passed. */
    method Fail(id: nat, now: real, retryIn: Option<real>)
      requires Valid()
      modifies this`rows
      ensures Valid()
      ensures id !in old(rows) ==> rows == old(rows)
      ensures id in old(rows) ==>
                var r := old(rows)[id];
                rows == old(rows)[id := match retryIn
                                        case Some(delay) => Row(r.work, Pending, r.attempts + 1, now + delay, now)
                                        case None => Row(r.work, Failed, r.attempts + 1, r.runAt, now)]
    {
      if id in rows {
        rows := rows[id := FailRow(rows[id], now, retryIn)];
      }
    }

    method PendingOrProcessingCount(now: real) returns (n: nat)
      ensures n == |set id | id in rows && InFlight(rows[id], now)|
      ensures n == 0 ==> forall id | id in rows ::
                (rows[id].status == Pending ==> rows[id].runAt > now)
                && (rows[id].status == Processing ==> rows[id].updatedAt + 900.0 < now)
    {
      n := 0;
      var todo := rows.Keys;
      ghost var counted: set<nat> := {};
      while todo != {}
        invariant todo <= rows.Keys && n == |counted|
        invariant counted == set id | id in rows && id !in todo && InFlight(rows[id], now)
      {
        var id :| id in todo;
        if InFlight(rows[id], now) {
          n := n + 1;
          counted := counted + {id};
        }
        todo := todo - {id};
      }
      assert counted == set id | id in rows && InFlight(rows[id], now);
      if n == 0 {
        forall id | id in rows ensures !InFlight(rows[id], now) { assert id !in counted; }
      }
    }
  }

  /** No row is claimed before it is due or while another claim on it lasts. */
  lemma ClaimableMeans(r: Row, now: real)
    ensures Claimable(r, now) <==>
              (r.status == Pending && r.runAt <= now) || (r.status == Processing && r.updatedAt + 900.0 < now)
    ensures InFlight(r, now) <==>
              (r.status == Pending && r.runAt <= now) || (r.status == Processing && r.updatedAt + 900.0 >= now)
  {
  }

  /** `--until-empty` may stop: when nothing is claimable and the count is zero, only future work is left. */
  lemma DrainedMeansOnlyFutureWork(rows: Table, now: real)
    requires forall id | id in rows :: !Claimable(rows[id], now)
    requires |set id | id in rows && InFlight(rows[id], now)| == 0
    ensures forall id | id in rows && rows[id].Live() :: rows[id].status == Pending && rows[id].runAt > now
  {
    var counted := set id | id in rows && InFlight(rows[id], now);
    assert counted == {};
    forall id | id in rows && rows[id].Live() ensures rows[id].status == Pending && rows[id].runAt > now {
      assert id !in counted;
    }
  }
}
