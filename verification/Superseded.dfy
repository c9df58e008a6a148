/** Runs that `cancel-in-progress` would have stopped (src/cadence/simulate.py:118-183). */
module Superseded {
  import opened Common

  /** A row as it arrives; anything missing disqualifies it. */
  datatype Row = Row(id: int, ref: Option<string>, started: Option<real>, completed: Option<real>)

  datatype Entry = Entry(id: int, started: real, completed: real)

  datatype SupersededRun = SupersededRun(runId: int, supersededBy: int, wastedSeconds: real)

  predicate Usable(row: Row) {
    row.ref.Some? && row.started.Some? && row.completed.Some?
  }

  function EntryOf(row: Row): Entry
    requires Usable(row)
  {
    Entry(row.id, row.started.value, row.completed.value)
  }

  // ---------------------------------------------------------------- grouping and sorting

  /** The usable rows of one ref, in arrival order. */
  function Group(rows: seq<Row>, ref: string): seq<Entry> {
    if rows == [] then []
    else
      var k := |rows| - 1;
      Group(rows[..k], ref) + if Usable(rows[k]) && rows[k].ref.value == ref then [EntryOf(rows[k])] else []
  }

  /** The refs of the usable rows, in first-seen order: the key order of the dictionary. */
  function Refs(rows: seq<Row>): seq<string> {
    if rows == [] then []
    else
      var k := |rows| - 1;
      var front := Refs(rows[..k]);
      if Usable(rows[k]) && rows[k].ref.value !in front then front + [rows[k].ref.value] else front
  }

  function InsertByStart(s: seq<Entry>, e: Entry): seq<Entry> {
    if s == [] || s[|s| - 1].started <= e.started then s + [e]
    else InsertByStart(s[..|s| - 1], e) + [s[|s| - 1]]
  }

  /** `entries.sort(key=started)`: stable. */
  function SortByStart(s: seq<Entry>): seq<Entry> {
    if s == [] then [] else InsertByStart(SortByStart(s[..|s| - 1]), s[|s| - 1])
  }

  ghost predicate SortedByStart(s: seq<Entry>) {
    forall i, j | 0 <= i < j < |s| :: s[i].started <= s[j].started
  }

  function StartingAt(s: seq<Entry>, t: real): seq<Entry> {
    if s == [] then [] else StartingAt(s[..|s| - 1], t) + if s[|s| - 1].started == t then [s[|s| - 1]] else []
  }

  lemma {:induction false} InsertAdds(s: seq<Entry>, e: Entry)
    ensures multiset(InsertByStart(s, e)) == multiset(s) + multiset{e}
    decreases |s|
  {
    if s != [] && s[|s| - 1].started > e.started {
      InsertAdds(s[..|s| - 1], e);
      assert s == s[..|s| - 1] + [s[|s| - 1]];
    }
  }

  lemma InsertMember(s: seq<Entry>, e: Entry, x: Entry)
    requires x in InsertByStart(s, e)
    ensures x == e || x in s
  {
    InsertAdds(s, e);
    assert x in multiset(InsertByStart(s, e));
  }

  lemma {:induction false} InsertSorts(s: seq<Entry>, e: Entry)
    requires SortedByStart(s)
    ensures SortedByStart(InsertByStart(s, e))
    decreases |s|
  {
    if s != [] && s[|s| - 1].started > e.started {
      var front, last := s[..|s| - 1], s[|s| - 1];
      InsertSorts(front, e);
      var r := InsertByStart(front, e);
      forall i | 0 <= i < |r| ensures r[i].started <= last.started { InsertMember(front, e, r[i]); }
    }
  }

  lemma {:induction false} InsertKeepsTies(s: seq<Entry>, e: Entry, t: real)
    requires SortedByStart(s)
    ensures StartingAt(InsertByStart(s, e), t) == StartingAt(s, t) + if e.started == t then [e] else []
  {
    if s == [] || s[|s| - 1].started <= e.started {
      assert (s + [e])[..|s|] == s;
    } else {
      var front, last := s[..|s| - 1], s[|s| - 1];
      InsertKeepsTies(front, e, t);
      var r := InsertByStart(front, e);
      assert (r + [last])[..|r|] == r;
      if e.started == t { NoneStartingAt(s, t, last); }
    }
  }

  lemma NoneStartingAt(s: seq<Entry>, t: real, last: Entry)
    requires s != [] && last == s[|s| - 1] && last.started > t
    ensures StartingAt(s, t) == StartingAt(s[..|s| - 1], t)
  {
  }

  lemma {:induction false} SortOrders(s: seq<Entry>)
    ensures SortedByStart(SortByStart(s)) && multiset(SortByStart(s)) == multiset(s)
    decreases |s|
  {
    if s != [] {
      SortOrders(s[..|s| - 1]);
      InsertSorts(SortByStart(s[..|s| - 1]), s[|s| - 1]);
      InsertAdds(SortByStart(s[..|s| - 1]), s[|s| - 1]);
      assert s == s[..|s| - 1] + [s[|s| - 1]];
      hide InsertByStart, SortedByStart;
    }
  }

  /** Rows that start together keep their arrival order: with `SortOrders`, this pins the sort down. */
  lemma {:induction false} SortIsStable(s: seq<Entry>, t: real)
    ensures StartingAt(SortByStart(s), t) == StartingAt(s, t)
  {
    if s != [] {
      SortIsStable(s[..|s| - 1], t);
      SortOrders(s[..|s| - 1]);
      InsertKeepsTies(SortByStart(s[..|s| - 1]), s[|s| - 1], t);
    }
  }

  // ---------------------------------------------------------------- the sweep

  function Verdict(e: Entry, later: seq<Entry>): seq<SupersededRun> {
    if later == [] || later[0].started >= e.completed then []
    else [SupersededRun(e.id, later[0].id, e.completed - later[0].started)]
  }

  function Sweep(s: seq<Entry>): seq<SupersededRun> {
    if s == [] then [] else Verdict(s[0], s[1..]) + Sweep(s[1..])
  }

  function SweepRefs(rows: seq<Row>, refs: seq<string>): seq<SupersededRun> {
    if refs == [] then []
    else SweepRefs(rows, refs[..|refs| - 1]) + Sweep(Sorted(rows, refs[|refs| - 1]))
  }

  lemma {:induction false} SweepSplit(s: seq<Entry>, i: nat)
    requires i < |s|
    ensures SweepUpTo(s, i + 1) == SweepUpTo(s, i) + Verdict(s[i], s[i + 1..])
  {
    if i > 0 { SweepSplit(s[1..], i - 1); assert s[1..][i..] == s[i + 1..]; }
  }

  function SweepUpTo(s: seq<Entry>, i: nat): seq<SupersededRun>
    requires i <= |s|
  {
    if i == 0 then [] else Verdict(s[0], s[1..]) + SweepUpTo(s[1..], i - 1)
  }

  lemma {:induction false} SweepAll(s: seq<Entry>)
    ensures SweepUpTo(s, |s|) == Sweep(s)
  {
    if s != [] { SweepAll(s[1..]); }
  }

  /** One ref's double loop (simulate.py:146-158). */
  method SweepRef(entries: seq<Entry>) returns (out: seq<SupersededRun>)
    ensures out == Sweep(entries)
  {
    out := [];
    for i := 0 to |entries|
      invariant out == SweepUpTo(entries, i)
    {
      SweepSplit(entries, i);
      var j, stop := i + 1, false;
      while j < |entries| && !stop
        invariant if stop then out == SweepUpTo(entries, i + 1) else j == i + 1 && out == SweepUpTo(entries, i)
        decreases if stop then 0 else 1
      {
        if entries[j].started < entries[i].completed {
          out := out + [SupersededRun(entries[i].id, entries[j].id, entries[i].completed - entries[j].started)];
        }
        stop := true;
      }
      assert out == SweepUpTo(entries, i + 1);
    }
    SweepAll(entries);
  }

  ghost predicate IsGrouping(rows: seq<Row>, refs: seq<string>, byRef: map<string, seq<Entry>>) {
    && refs == Refs(rows)
    && (forall r :: r in byRef <==> r in refs)
    && (forall r | r in byRef :: byRef[r] == Group(rows, r))
  }

  lemma GroupAppend(rows: seq<Row>, row: Row, ref: string)
    ensures Group(rows + [row], ref) ==
              Group(rows, ref) + if Usable(row) && row.ref.value == ref then [EntryOf(row)] else []
  {
    assert (rows + [row])[..|rows|] == rows;
  }

  /** `by_ref` (simulate.py:137-141), with the dictionary's key order kept beside it. */
  method GroupByRef(rows: seq<Row>) returns (refs: seq<string>, byRef: map<string, seq<Entry>>)
    ensures IsGrouping(rows, refs, byRef)
  {
    refs, byRef := [], map[];
    for k := 0 to |rows|
      invariant IsGrouping(rows[..k], refs, byRef)
    {
      var row := rows[k];
      assert rows[..k + 1] == rows[..k] + [row] && rows[..k + 1][..k] == rows[..k];
      forall r ensures Group(rows[..k + 1], r) ==
                       Group(rows[..k], r) + if Usable(row) && row.ref.value == r then [EntryOf(row)] else []
      {
        GroupAppend(rows[..k], row, r);
      }
      if Usable(row) {
        var ref := row.ref.value;
        if ref !in byRef {
          UnseenRefIsEmpty(rows[..k], ref);
          byRef := byRef[ref := []];
          refs := refs + [ref];
        }
        byRef := byRef[ref := byRef[ref] + [EntryOf(row)]];
      }
    }
    assert rows[..|rows|] == rows;
  }

  method FindSupersededRuns(rows: seq<Row>) returns (out: seq<SupersededRun>)
    ensures out == SweepRefs(rows, Refs(rows))
  {
    var refs, byRef := GroupByRef(rows);
    out := [];
    for k := 0 to |refs|
      invariant out == SweepRefs(rows, refs[..k])
    {
      assert refs[..k + 1][..k] == refs[..k];
      assert refs[k] in refs;
      var found := SweepRef(SortByStart(byRef[refs[k]]));
      out := out + found;
    }
    assert refs[..|refs|] == refs;
  }

  // ---------------------------------------------------------------- the groups are the rows

  ghost predicate Distinct(refs: seq<string>) {
    forall i, j | 0 <= i < j < |refs| :: refs[i] != refs[j]
  }

  lemma {:induction false} RefsDistinct(rows: seq<Row>)
    ensures Distinct(Refs(rows))
    ensures forall k | 0 <= k < |rows| && Usable(rows[k]) :: rows[k].ref.value in Refs(rows)
  {
    if rows != [] { RefsDistinct(rows[..|rows| - 1]); }
  }

  lemma {:induction false} UnseenRefIsEmpty(rows: seq<Row>, ref: string)
    requires ref !in Refs(rows)
    ensures Group(rows, ref) == []
  {
    if rows != [] {
      RefsDistinct(rows);
      var k := |rows| - 1;
      UnseenRefIsEmpty(rows[..k], ref);
    }
  }

  function AllEntries(rows: seq<Row>): seq<Entry> {
    if rows == [] then []
    else
      var k := |rows| - 1;
      AllEntries(rows[..k]) + if Usable(rows[k]) then [EntryOf(rows[k])] else []
  }

  function AllGroups(rows: seq<Row>, refs: seq<string>): seq<Entry> {
    if refs == [] then [] else AllGroups(rows, refs[..|refs| - 1]) + Group(rows, refs[|refs| - 1])
  }

  function EntriesOn(rows: seq<Row>, refs: seq<string>): seq<Entry> {
    if rows == [] then []
    else
      var k := |rows| - 1;
      EntriesOn(rows[..k], refs) + if Usable(rows[k]) && rows[k].ref.value in refs then [EntryOf(rows[k])] else []
  }

  lemma {:induction false} OneMoreRef(rows: seq<Row>, refs: seq<string>, ref: string)
    requires ref !in refs
    ensures multiset(EntriesOn(rows, refs + [ref])) == multiset(EntriesOn(rows, refs)) + multiset(Group(rows, ref))
    decreases |rows|
  {
    if rows != [] {
      OneMoreRef(rows[..|rows| - 1], refs, ref);
    }
  }

  lemma {:induction false} GroupsAreEntriesOn(rows: seq<Row>, refs: seq<string>)
    requires Distinct(refs)
    ensures multiset(AllGroups(rows, refs)) == multiset(EntriesOn(rows, refs))
    decreases |refs|
  {
    if refs == [] {
      NoRefNoEntries(rows);
    } else {
      var front, last := refs[..|refs| - 1], refs[|refs| - 1];
      assert refs == front + [last];
      GroupsAreEntriesOn(rows, front);
      OneMoreRef(rows, front, last);
    }
  }

  lemma {:induction false} NoRefNoEntries(rows: seq<Row>)
    ensures EntriesOn(rows, []) == []
    decreases |rows|
  {
    if rows != [] { NoRefNoEntries(rows[..|rows| - 1]); }
  }

  lemma {:induction false} EveryRefEveryEntry(rows: seq<Row>, refs: seq<string>)
    requires forall k | 0 <= k < |rows| && Usable(rows[k]) :: rows[k].ref.value in refs
    ensures EntriesOn(rows, refs) == AllEntries(rows)
    decreases |rows|
  {
    if rows != [] { EveryRefEveryEntry(rows[..|rows| - 1], refs); }
  }

  /** The refs' lists together hold every usable row as often as it arrived: none is lost or listed twice. */
  lemma GroupsPartition(rows: seq<Row>)
    ensures multiset(AllGroups(rows, Refs(rows))) == multiset(AllEntries(rows))
  {
    RefsDistinct(rows);
    GroupsAreEntriesOn(rows, Refs(rows));
    EveryRefEveryEntry(rows, Refs(rows));
  }

  // ---------------------------------------------------------------- cancel-in-progress, on rows as they arrive

  predicate OnRef(rows: seq<Row>, i: nat, ref: string)
    requires i < |rows|
  {
    Usable(rows[i]) && rows[i].ref.value == ref
  }

  /** Run `j` starts behind run `i` on the same ref: later, or at the same instant but arriving after it. */
  predicate Follows(rows: seq<Row>, i: nat, j: nat)
    requires i < |rows| && j < |rows|
  {
    && Usable(rows[i]) && Usable(rows[j]) && rows[j].ref == rows[i].ref
    && (rows[i].started.value < rows[j].started.value || (rows[i].started == rows[j].started && i < j))
  }

  function StopAmong(rows: seq<Row>, i: nat, n: nat): real
    requires i < |rows| && Usable(rows[i]) && n <= |rows|
  {
    if n == 0 then rows[i].completed.value
    else
      var t := StopAmong(rows, i, n - 1);
      if Follows(rows, i, n - 1) && rows[n - 1].started.value < t then rows[n - 1].started.value else t
  }

  /** With cancel-in-progress a run ends at its completion or when the first run that follows it starts. */
  function StopsAt(rows: seq<Row>, i: nat): real
    requires i < |rows| && Usable(rows[i])
  {
    StopAmong(rows, i, |rows|)
  }

  ghost predicate IsStop(rows: seq<Row>, i: nat, n: nat, t: real)
    requires i < |rows| && Usable(rows[i]) && n <= |rows|
  {
    && t <= rows[i].completed.value
    && (forall j: nat | j < n && Follows(rows, i, j) :: t <= rows[j].started.value)
    && (t == rows[i].completed.value || exists j: nat :: j < n && Follows(rows, i, j) && rows[j].started.value == t)
  }

  lemma {:induction false} StopIsEarliest(rows: seq<Row>, i: nat, n: nat)
    requires i < |rows| && Usable(rows[i]) && n <= |rows|
    ensures IsStop(rows, i, n, StopAmong(rows, i, n))
    ensures rows[i].started.value <= rows[i].completed.value ==> rows[i].started.value <= StopAmong(rows, i, n)
  {
    if n > 0 { StopIsEarliest(rows, i, n - 1); }
  }

  /** What is summed over rows: how long a run lasted, how long it runs under cancellation, and the difference. */
  datatype Measure = Lasted | Ran | Lost

  function Value(rows: seq<Row>, m: Measure, i: nat): real {
    if i >= |rows| || !Usable(rows[i]) then 0.0
    else
      match m
      case Lasted => rows[i].completed.value - rows[i].started.value
      case Ran => StopsAt(rows, i) - rows[i].started.value
      case Lost => rows[i].completed.value - StopsAt(rows, i)
  }

  function SumTo(rows: seq<Row>, m: Measure, n: nat): real {
    if n == 0 then 0.0 else SumTo(rows, m, n - 1) + Value(rows, m, n - 1)
  }

  function TotalDuration(rows: seq<Row>): real { SumTo(rows, Lasted, |rows|) }

  function TimeUnderCancellation(rows: seq<Row>): real { SumTo(rows, Ran, |rows|) }

  function SumOn(rows: seq<Row>, m: Measure, ref: string, n: nat): real
    requires n <= |rows|
  {
    if n == 0 then 0.0
    else SumOn(rows, m, ref, n - 1) + if OnRef(rows, n - 1, ref) then Value(rows, m, n - 1) else 0.0
  }

  function SumAt(rows: seq<Row>, m: Measure, pos: seq<nat>): real {
    if pos == [] then 0.0 else SumAt(rows, m, pos[..|pos| - 1]) + Value(rows, m, pos[|pos| - 1])
  }

  function Waste(out: seq<SupersededRun>): real {
    if out == [] then 0.0 else Waste(out[..|out| - 1]) + out[|out| - 1].wastedSeconds
  }

  lemma {:induction false} WasteConcat(a: seq<SupersededRun>, b: seq<SupersededRun>)
    ensures Waste(a + b) == Waste(a) + Waste(b)
  {
    if b == [] {
      assert a + b == a;
    } else {
      WasteConcat(a, b[..|b| - 1]);
      assert (a + b)[..|a + b| - 1] == a + b[..|b| - 1];
    }
  }

  // ---------------------------------------------------------------- where the sort puts each row

  function Sorted(rows: seq<Row>, ref: string): seq<Entry> { SortByStart(Group(rows, ref)) }

  /** Place `p` of `s` holds row `pos[p]`. */
  ghost predicate Places(rows: seq<Row>, ref: string, k: nat, s: seq<Entry>, pos: seq<nat>)
    requires k <= |rows|
  {
    |pos| == |s| && forall p | 0 <= p < |pos| :: pos[p] < k && OnRef(rows, pos[p], ref) && s[p] == EntryOf(rows[pos[p]])
  }

  ghost predicate InTurn(rows: seq<Row>, pos: seq<nat>) {
    && (forall p | 0 <= p < |pos| :: pos[p] < |rows|)
    && (forall p, q | 0 <= p < q < |pos| :: Follows(rows, pos[p], pos[q]))
  }

  /** The sort puts every row of the ref somewhere, once, each followed by those behind it. */
  ghost predicate IsSorting(rows: seq<Row>, ref: string, k: nat, s: seq<Entry>, pos: seq<nat>)
    requires k <= |rows|
  {
    Places(rows, ref, k, s, pos) && InTurn(rows, pos) && forall i: nat | i < k && OnRef(rows, i, ref) :: i in pos
  }

  function InsertAt<T>(s: seq<T>, at: nat, x: T): (r: seq<T>)
    requires at <= |s|
    ensures |r| == |s| + 1
    ensures forall p | 0 <= p < |r| :: r[p] == if p < at then s[p] else if p == at then x else s[p - 1]
    ensures forall p | 0 <= p < |s| :: s[p] == if p < at then r[p] else r[p + 1]
  {
    s[..at] + [x] + s[at..]
  }

  lemma {:induction false} InsertPlace(s: seq<Entry>, e: Entry) returns (at: nat)
    requires SortedByStart(s)
    ensures at <= |s| && InsertByStart(s, e) == InsertAt(s, at, e)
    ensures forall p | 0 <= p < at :: s[p].started <= e.started
    ensures forall p | at <= p < |s| :: e.started < s[p].started
    decreases |s|
  {
    if s == [] || s[|s| - 1].started <= e.started {
      at := |s|;
      assert InsertAt(s, |s|, e) == s + [e];
    } else {
      at := InsertPlace(s[..|s| - 1], e);
      assert InsertAt(s[..|s| - 1], at, e) + [s[|s| - 1]] == InsertAt(s, at, e);
    }
  }

  lemma {:induction false} SumAtConcat(rows: seq<Row>, m: Measure, a: seq<nat>, b: seq<nat>)
    ensures SumAt(rows, m, a + b) == SumAt(rows, m, a) + SumAt(rows, m, b)
    decreases |b|
  {
    if b == [] {
      assert a + b == a;
    } else {
      SumAtConcat(rows, m, a, b[..|b| - 1]);
      assert (a + b)[..|a + b| - 1] == a + b[..|b| - 1];
    }
  }

  lemma SumAtInsert(rows: seq<Row>, m: Measure, pos: seq<nat>, at: nat, i: nat)
    requires at <= |pos|
    ensures SumAt(rows, m, InsertAt(pos, at, i)) == SumAt(rows, m, pos) + Value(rows, m, i)
  {
    SumAtConcat(rows, m, pos[..at] + [i], pos[at..]);
    SumAtConcat(rows, m, pos[..at], pos[at..]);
    assert pos == pos[..at] + pos[at..];
    assert (pos[..at] + [i])[..at] == pos[..at];
  }

  lemma SortingGrows(rows: seq<Row>, ref: string, k: nat, s: seq<Entry>, pos: seq<nat>, at: nat)
    requires k < |rows| && IsSorting(rows, ref, k, s, pos) && OnRef(rows, k, ref) && at <= |s|
    requires forall p | 0 <= p < at :: s[p].started <= rows[k].started.value
    requires forall p | at <= p < |s| :: rows[k].started.value < s[p].started
    ensures IsSorting(rows, ref, k + 1, InsertAt(s, at, EntryOf(rows[k])), InsertAt(pos, at, k))
  {
    assert (forall p | 0 <= p < at :: Follows(rows, pos[p], k)) && forall p | at <= p < |pos| :: Follows(rows, k, pos[p]);
    InsertKeepsTurn(rows, pos, at, k);
    PlacesInsert(rows, ref, k, s, pos, at);
    hide Places, InTurn, InsertAt, EntryOf;
    forall i: nat | i < k + 1 && OnRef(rows, i, ref) ensures i in InsertAt(pos, at, k) {
      if i < k { assert i in pos; }
      InsertAtMembers(pos, at, k, i);
    }
  }

  lemma InsertAtMembers<T>(s: seq<T>, at: nat, x: T, y: T)
    requires at <= |s|
    ensures y in InsertAt(s, at, x) <==> y == x || y in s
  {
    var r := InsertAt(s, at, x);
    if y in s {
      var p :| 0 <= p < |s| && s[p] == y;
      assert r[if p < at then p else p + 1] == y;
    }
    assert r[at] == x;
  }

  lemma PlacesInsert(rows: seq<Row>, ref: string, k: nat, s: seq<Entry>, pos: seq<nat>, at: nat)
    requires k < |rows| && Places(rows, ref, k, s, pos) && OnRef(rows, k, ref) && at <= |s|
    ensures Places(rows, ref, k + 1, InsertAt(s, at, EntryOf(rows[k])), InsertAt(pos, at, k))
  {
    var t := InsertAt(pos, at, k);
    var u := InsertAt(s, at, EntryOf(rows[k]));
    hide InsertAt, OnRef, EntryOf;
    forall p | 0 <= p < |t| ensures t[p] < k + 1 && OnRef(rows, t[p], ref) && u[p] == EntryOf(rows[t[p]]) {
      if p < at { assert t[p] == pos[p]; } else if p > at { assert t[p] == pos[p - 1]; }
    }
  }

  lemma InsertKeepsTurn(rows: seq<Row>, pos: seq<nat>, at: nat, k: nat)
    requires InTurn(rows, pos) && at <= |pos| && k < |rows|
    requires forall p | 0 <= p < at :: Follows(rows, pos[p], k)
    requires forall p | at <= p < |pos| :: Follows(rows, k, pos[p])
    ensures InTurn(rows, InsertAt(pos, at, k))
  {
    var t := InsertAt(pos, at, k);
    hide InsertAt, Follows;
    forall p, q | 0 <= p < q < |t| ensures t[p] < |rows| && t[q] < |rows| && Follows(rows, t[p], t[q]) {
      var a, b := if p < at then p else p - 1, if q < at then q else q - 1;
      assert p != at ==> t[p] == pos[a];
      assert q != at ==> t[q] == pos[b];
    }
  }

  lemma SortedIsSorted(rows: seq<Row>, ref: string)
    ensures SortedByStart(Sorted(rows, ref))
  {
    SortOrders(Group(rows, ref));
  }

  lemma SortedGrows(rows: seq<Row>, ref: string, k: nat)
    requires k < |rows|
    ensures Sorted(rows[..k + 1], ref) ==
            if OnRef(rows, k, ref) then InsertByStart(Sorted(rows[..k], ref), EntryOf(rows[k])) else Sorted(rows[..k], ref)
  {
    var g := Group(rows[..k], ref);
    assert rows[..k + 1] == rows[..k] + [rows[k]];
    GroupAppend(rows[..k], rows[k], ref);
    hide Group, InsertByStart;
    if OnRef(rows, k, ref) {
      assert (g + [EntryOf(rows[k])])[..|g|] == g;
    } else {
      assert g + [] == g;
    }
  }

  lemma SortingSkips(rows: seq<Row>, ref: string, k: nat, s: seq<Entry>, pos: seq<nat>)
    requires k < |rows| && IsSorting(rows, ref, k, s, pos) && !OnRef(rows, k, ref)
    ensures IsSorting(rows, ref, k + 1, s, pos)
  {
    hide OnRef, InTurn;
  }

  lemma {:induction false} SortingExists(rows: seq<Row>, ref: string, k: nat, m: Measure) returns (pos: seq<nat>)
    requires k <= |rows|
    ensures IsSorting(rows, ref, k, Sorted(rows[..k], ref), pos)
    ensures SumAt(rows, m, pos) == SumOn(rows, m, ref, k)
    decreases k
  {
    pos := [];
    if k > 0 {
      var n := k - 1;
      var front := SortingExists(rows, ref, n, m);
      var s := Sorted(rows[..n], ref);
      SortedIsSorted(rows[..n], ref);
      hide IsSorting, Sorted, Value, EntryOf, OnRef, SumAt, InsertByStart, InsertAt, SortedByStart;
      SortedGrows(rows, ref, n);
      if OnRef(rows, n, ref) {
        var at := InsertPlace(s, EntryOf(rows[n]));
        SortingGrows(rows, ref, n, s, front, at);
        SumAtInsert(rows, m, front, at, n);
        pos := InsertAt(front, at, n);
      } else {
        SortingSkips(rows, ref, n, s, front);
        pos := front;
      }
    }
  }

  // ---------------------------------------------------------------- one ref replayed

  /** Only the next start on the ref can cut a run short. */
  lemma StopInSorting(rows: seq<Row>, ref: string, s: seq<Entry>, pos: seq<nat>, p: nat)
    requires IsSorting(rows, ref, |rows|, s, pos) && p < |pos|
    ensures StopsAt(rows, pos[p]) ==
            if p + 1 < |s| && s[p + 1].started < s[p].completed then s[p + 1].started else s[p].completed
  {
    var i := pos[p];
    StopIsEarliest(rows, i, |rows|);
    forall q | 0 <= q < p ensures !Follows(rows, i, pos[q]) { assert Follows(rows, pos[q], i); }
    forall j: nat | j < |rows| && Follows(rows, i, j)
      ensures p + 1 < |s| && s[p + 1].started <= rows[j].started.value
    {
      assert OnRef(rows, j, ref);
      var q :| 0 <= q < |pos| && pos[q] == j;
      assert q > p;
      if q > p + 1 { assert Follows(rows, pos[p + 1], pos[q]); }
    }
    if p + 1 < |s| { assert Follows(rows, pos[p], pos[p + 1]); }
  }

  lemma VerdictIsLoss(rows: seq<Row>, ref: string, s: seq<Entry>, pos: seq<nat>, p: nat)
    requires IsSorting(rows, ref, |rows|, s, pos) && p < |pos|
    ensures Waste(Verdict(s[p], s[p + 1..])) == Value(rows, Lost, pos[p])
  {
    StopInSorting(rows, ref, s, pos, p);
    var v := Verdict(s[p], s[p + 1..]);
    if v != [] { assert v[..0] == []; }
  }

  lemma SumAtLast(rows: seq<Row>, m: Measure, pos: seq<nat>, n: nat)
    requires n < |pos|
    ensures SumAt(rows, m, pos[..n + 1]) == SumAt(rows, m, pos[..n]) + Value(rows, m, pos[n])
  {
    assert pos[..n + 1][..n] == pos[..n];
  }

  lemma {:induction false} SweepChargesLosses(rows: seq<Row>, ref: string, s: seq<Entry>, pos: seq<nat>, p: nat)
    requires IsSorting(rows, ref, |rows|, s, pos) && p <= |pos|
    ensures Waste(SweepUpTo(s, p)) == SumAt(rows, Lost, pos[..p])
    decreases p
  {
    if p > 0 {
      var n := p - 1;
      VerdictIsLoss(rows, ref, s, pos, n);
      SumAtLast(rows, Lost, pos, n);
      SweepSplit(s, n);
      SweepChargesLosses(rows, ref, s, pos, n);
      hide *;
      WasteConcat(SweepUpTo(s, n), Verdict(s[n], s[n + 1..]));
    }
  }

  /** On one ref the reported waste is exactly what its runs lose when each stops at the next start. */
  lemma SweepIsExactReplay(rows: seq<Row>, ref: string)
    ensures Waste(Sweep(Sorted(rows, ref))) == SumOn(rows, Lost, ref, |rows|)
  {
    var s := Sorted(rows, ref);
    assert rows[..|rows|] == rows;
    var pos := SortingExists(rows, ref, |rows|, Lost);
    SweepChargesLosses(rows, ref, s, pos, |s|);
    assert pos[..|s|] == pos;
    SweepAll(s);
  }

  // ---------------------------------------------------------------- the whole repository

  function SumOnAny(rows: seq<Row>, m: Measure, refs: seq<string>, n: nat): real
    requires n <= |rows|
  {
    if n == 0 then 0.0
    else
      SumOnAny(rows, m, refs, n - 1) +
      if Usable(rows[n - 1]) && rows[n - 1].ref.value in refs then Value(rows, m, n - 1) else 0.0
  }

  lemma {:induction false} SumOneMoreRef(rows: seq<Row>, m: Measure, refs: seq<string>, ref: string, n: nat)
    requires n <= |rows| && ref !in refs
    ensures SumOnAny(rows, m, refs + [ref], n) == SumOnAny(rows, m, refs, n) + SumOn(rows, m, ref, n)
  {
    if n > 0 { SumOneMoreRef(rows, m, refs, ref, n - 1); }
  }

  lemma {:induction false} SumNoRef(rows: seq<Row>, m: Measure, n: nat)
    requires n <= |rows|
    ensures SumOnAny(rows, m, [], n) == 0.0
  {
    if n > 0 { SumNoRef(rows, m, n - 1); }
  }

  lemma {:induction false} SumEveryRef(rows: seq<Row>, m: Measure, refs: seq<string>, n: nat)
    requires n <= |rows| && forall k | 0 <= k < |rows| && Usable(rows[k]) :: rows[k].ref.value in refs
    ensures SumOnAny(rows, m, refs, n) == SumTo(rows, m, n)
  {
    if n > 0 { SumEveryRef(rows, m, refs, n - 1); }
  }

  lemma {:induction false} RefsReplayExactly(rows: seq<Row>, refs: seq<string>)
    requires Distinct(refs)
    ensures Waste(SweepRefs(rows, refs)) == SumOnAny(rows, Lost, refs, |rows|)
    decreases |refs|
  {
    if refs == [] {
      SumNoRef(rows, Lost, |rows|);
    } else {
      var front, last := refs[..|refs| - 1], refs[|refs| - 1];
      assert refs == front + [last];
      RefsReplayExactly(rows, front);
      WasteConcat(SweepRefs(rows, front), Sweep(Sorted(rows, last)));
      SweepIsExactReplay(rows, last);
      SumOneMoreRef(rows, Lost, front, last, |rows|);
    }
  }

  lemma {:induction false} RanAndLost(rows: seq<Row>, n: nat)
    ensures SumTo(rows, Ran, n) + SumTo(rows, Lost, n) == SumTo(rows, Lasted, n)
  {
    if n > 0 { RanAndLost(rows, n - 1); }
  }

  /** What the detector reports, subtracted from what ran, is what cancellation would have let run. */
  lemma ReportIsExactReplay(rows: seq<Row>)
    ensures TotalDuration(rows) - Waste(SweepRefs(rows, Refs(rows))) == TimeUnderCancellation(rows)
  {
    RefsDistinct(rows);
    RefsReplayExactly(rows, Refs(rows));
    SumEveryRef(rows, Lost, Refs(rows), |rows|);
    RanAndLost(rows, |rows|);
  }

  /** The waste spread over every run of the window; `None` when there is nothing to spread or to spread it over. */
  method ReplayCancellationSavings(superseded: seq<SupersededRun>, totalRuns: int) returns (perRun: Option<real>)
    ensures perRun.Some? <==> superseded != [] && totalRuns > 0
    ensures perRun.Some? ==> perRun.value * totalRuns as real == Waste(superseded)
  {
    if superseded == [] || totalRuns <= 0 {
      return None;
    }
    var total := 0.0;
    for k := 0 to |superseded|
      invariant total == Waste(superseded[..k])
    {
      assert superseded[..k + 1][..k] == superseded[..k];
      total := total + superseded[k].wastedSeconds;
    }
    assert superseded[..|superseded|] == superseded;
    perRun := Some(total / totalRuns as real);
  }

  /** From rows to the quoted figure: times the number of runs, it is exactly what cancellation would have saved. */
  method CancellationSavings(rows: seq<Row>, totalRuns: int) returns (perRun: Option<real>)
    ensures perRun.Some? ==> perRun.value * totalRuns as real == TotalDuration(rows) - TimeUnderCancellation(rows)
    ensures perRun.None? && totalRuns > 0 ==> TotalDuration(rows) == TimeUnderCancellation(rows)
  {
    var superseded := FindSupersededRuns(rows);
    perRun := ReplayCancellationSavings(superseded, totalRuns);
    ReportIsExactReplay(rows);
  }

  // ---------------------------------------------------------------- each report is sound, and made once

  /** The report charges row `i` with the part of its own time that lies behind the start that stops it. */
  ghost predicate Charges(rows: seq<Row>, i: nat, r: SupersededRun) {
    && i < |rows| && Usable(rows[i]) && r.runId == rows[i].id
    && 0.0 < r.wastedSeconds == Value(rows, Lost, i) <= Value(rows, Lasted, i)
    && exists j: nat :: j < |rows| && Follows(rows, i, j) && rows[j].id == r.supersededBy
                        && rows[j].started.value == StopsAt(rows, i)
  }

  ghost predicate DistinctRows(at: seq<nat>) {
    forall j, k | 0 <= j < k < |at| :: at[j] != at[k]
  }

  /** Report `j` charges row `at[j]`; no row is charged twice. */
  ghost predicate Reports(rows: seq<Row>, out: seq<SupersededRun>, at: seq<nat>) {
    && |at| == |out| && DistinctRows(at)
    && forall j | 0 <= j < |at| :: Charges(rows, at[j], out[j])
  }

  lemma VerdictCharges(rows: seq<Row>, ref: string, s: seq<Entry>, pos: seq<nat>, p: nat)
    requires IsSorting(rows, ref, |rows|, s, pos) && p < |pos|
    ensures var v := Verdict(s[p], s[p + 1..]);
            |v| <= 1 && (v != [] <==> Value(rows, Lost, pos[p]) > 0.0) && (v != [] ==> Charges(rows, pos[p], v[0]))
  {
    StopInSorting(rows, ref, s, pos, p);
    if p + 1 < |s| { assert Follows(rows, pos[p], pos[p + 1]); }
  }

  lemma ReportsAppend(rows: seq<Row>, out: seq<SupersededRun>, at: seq<nat>, r: SupersededRun, i: nat)
    requires Reports(rows, out, at) && Charges(rows, i, r) && i !in at
    ensures Reports(rows, out + [r], at + [i])
  {
    hide Charges;
  }

  lemma {:induction false} RefReports(rows: seq<Row>, ref: string, s: seq<Entry>, pos: seq<nat>, p: nat)
    returns (at: seq<nat>)
    requires IsSorting(rows, ref, |rows|, s, pos) && p <= |pos|
    ensures Reports(rows, SweepUpTo(s, p), at)
    ensures forall i | i in at :: i in pos[..p]
    ensures forall q | 0 <= q < p && Value(rows, Lost, pos[q]) > 0.0 :: pos[q] in at
    decreases p
  {
    at := [];
    if p > 0 {
      var n := p - 1;
      var front := RefReports(rows, ref, s, pos, n);
      SweepSplit(s, n);
      VerdictCharges(rows, ref, s, pos, n);
      NotBefore(rows, pos, n);
      hide Charges, Value, Verdict, IsSorting, Reports, SweepUpTo;
      var v := Verdict(s[n], s[p..]);
      assert pos[..p] == pos[..n] + [pos[n]];
      if v != [] {
        ReportsAppend(rows, SweepUpTo(s, n), front, v[0], pos[n]);
        assert v == [v[0]];
        at := front + [pos[n]];
      } else {
        assert SweepUpTo(s, n) + v == SweepUpTo(s, n);
        at := front;
      }
    }
  }

  lemma NotBefore(rows: seq<Row>, pos: seq<nat>, n: nat)
    requires InTurn(rows, pos) && n < |pos|
    ensures pos[n] !in pos[..n]
  {
    forall q | 0 <= q < n ensures pos[q] != pos[n] { assert Follows(rows, pos[q], pos[n]); }
  }

  lemma ReportsConcat(rows: seq<Row>, a: seq<SupersededRun>, at: seq<nat>, b: seq<SupersededRun>, bt: seq<nat>)
    requires Reports(rows, a, at) && Reports(rows, b, bt) && forall i | i in at :: i !in bt
    ensures Reports(rows, a + b, at + bt)
  {
    hide Charges;
    forall j, k | 0 <= j < k < |at + bt| ensures (at + bt)[j] != (at + bt)[k] {
      if j < |at| <= k { assert at[j] in at && bt[k - |at|] in bt; }
    }
  }

  lemma WholeRefReports(rows: seq<Row>, ref: string) returns (at: seq<nat>)
    ensures Reports(rows, Sweep(Sorted(rows, ref)), at)
    ensures forall i | i in at :: i < |rows| && OnRef(rows, i, ref)
    ensures forall i: nat | i < |rows| && OnRef(rows, i, ref) && Value(rows, Lost, i) > 0.0 :: i in at
  {
    var s := Sorted(rows, ref);
    assert rows[..|rows|] == rows;
    var pos := SortingExists(rows, ref, |rows|, Lost);
    at := RefReports(rows, ref, s, pos, |pos|);
    SweepAll(s);
    assert pos[..|pos|] == pos;
  }

  lemma {:induction false} RefsReport(rows: seq<Row>, refs: seq<string>) returns (at: seq<nat>)
    requires Distinct(refs)
    ensures Reports(rows, SweepRefs(rows, refs), at)
    ensures forall i | i in at :: i < |rows| && Usable(rows[i]) && rows[i].ref.value in refs
    ensures forall i: nat | i < |rows| && Usable(rows[i]) && rows[i].ref.value in refs && Value(rows, Lost, i) > 0.0 ::
              i in at
    decreases |refs|
  {
    if refs == [] {
      at := [];
    } else {
      var front, last := refs[..|refs| - 1], refs[|refs| - 1];
      assert refs == front + [last];
      var a := RefsReport(rows, front);
      var b := WholeRefReports(rows, last);
      hide Reports, Value, Sorted;
      ReportsConcat(rows, SweepRefs(rows, front), a, Sweep(Sorted(rows, last)), b);
      at := a + b;
    }
  }

  /** Over the whole repository: every report charges a row for part of its own time, no row is charged twice, and
      every row that cancellation would have cut short is reported. */
  lemma SweepReports(rows: seq<Row>) returns (at: seq<nat>)
    ensures Reports(rows, SweepRefs(rows, Refs(rows)), at)
    ensures forall i: nat | i < |rows| && Value(rows, Lost, i) > 0.0 :: i in at
  {
    RefsDistinct(rows);
    at := RefsReport(rows, Refs(rows));
  }
}
