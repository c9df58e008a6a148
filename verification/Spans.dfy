/** Observed jobs collapsed into node timings (src/cadence/dag.py:136-214). */
module Spans {
  import opened Common
  import opened Dag
  import opened CriticalPath

  datatype Row = Row(key: Node, created: Option<real>, started: Option<real>, completed: Option<real>)

  predicate Flagged(row: Row) {
    row.created.Some? && row.started.Some? && row.started.value < row.created.value
  }

  function Clamp(x: real): real { if x > 0.0 then x else 0.0 }

  // ---------------------------------------------------------------- what a node's timing means

  datatype Field = Created | Started | Completed

  function At(row: Row, f: Field): Option<real> {
    match f case Created => row.created case Started => row.started case Completed => row.completed
  }

  ghost predicate Observed(rows: seq<Row>, key: Node, f: Field) {
    exists r :: r in rows && r.key == key && At(r, f).Some?
  }

  ghost predicate IsEarliest(rows: seq<Row>, key: Node, f: Field, t: real) {
    && (exists r :: r in rows && r.key == key && At(r, f) == Some(t))
    && (forall r | r in rows && r.key == key && At(r, f).Some? :: t <= At(r, f).value)
  }

  ghost predicate IsLatest(rows: seq<Row>, key: Node, f: Field, t: real) {
    && (exists r :: r in rows && r.key == key && At(r, f) == Some(t))
    && (forall r | r in rows && r.key == key && At(r, f).Some? :: At(r, f).value <= t)
  }

  function Legs(rows: seq<Row>, key: Node): seq<Row> {
    if rows == [] then []
    else Legs(rows[..|rows| - 1], key) + if rows[|rows| - 1].key == key then [rows[|rows| - 1]] else []
  }

  /** The wait from the first creation to `start`, or zero when no creation time was recorded. */
  ghost predicate QueueFits(rows: seq<Row>, key: Node, start: real, queue: real) {
    && (forall c | IsEarliest(rows, key, Created, c) :: queue == Clamp(start - c))
    && (!Observed(rows, key, Created) ==> queue == 0.0)
  }

  /** Exec runs from the first start to the last completion, queue from the first creation; neither goes below zero. */
  ghost predicate IsSpan(rows: seq<Row>, key: Node, t: NodeTiming, start: real, end: real) {
    && t.key == key
    && IsEarliest(rows, key, Started, start) && IsLatest(rows, key, Completed, end)
    && t.execSeconds == Clamp(end - start)
    && QueueFits(rows, key, start, t.queueSeconds)
    && t.legCount == |Legs(rows, key)|
    && (t.queueUnknown <==> exists r :: r in rows && r.key == key && Flagged(r))
  }

  ghost predicate Spanned(rows: seq<Row>, key: Node, t: NodeTiming) {
    exists start, end :: IsSpan(rows, key, t, start, end)
  }

  ghost predicate IsAggregate(rows: seq<Row>, out: Timings) {
    && (forall k :: k in out <==> Observed(rows, k, Started) && Observed(rows, k, Completed))
    && (forall k | k in out :: Spanned(rows, k, out[k]))
  }

  /** The span of a node in terms of its rows: it runs from the least start to the greatest completion, and its queue
      from the least creation. */
  lemma SpanMeans(rows: seq<Row>, key: Node, t: NodeTiming, start: real, end: real)
    requires IsSpan(rows, key, t, start, end)
    ensures exists r :: r in rows && r.key == key && r.started == Some(start)
    ensures exists r :: r in rows && r.key == key && r.completed == Some(end)
    ensures forall r | r in rows && r.key == key && r.started.Some? :: start <= r.started.value
    ensures forall r | r in rows && r.key == key && r.completed.Some? :: r.completed.value <= end
    ensures t.execSeconds == if end - start > 0.0 then end - start else 0.0
    ensures (forall r | r in rows && r.key == key :: r.created.None?) ==> t.queueSeconds == 0.0
    ensures forall q | q in rows && q.key == key && q.created.Some?
                       && forall r | r in rows && r.key == key && r.created.Some? :: q.created.value <= r.created.value ::
              t.queueSeconds == if start - q.created.value > 0.0 then start - q.created.value else 0.0
    ensures t.queueUnknown <==> exists r :: r in rows && r.key == key && r.created.Some? && r.started.Some?
                                            && r.started.value < r.created.value
  {
    var a :| a in rows && a.key == key && At(a, Started) == Some(start);
    var b :| b in rows && b.key == key && At(b, Completed) == Some(end);
    assert a.started == Some(start) && b.completed == Some(end);
    forall r | r in rows && r.key == key && r.started.Some? ensures start <= r.started.value {
      assert At(r, Started).Some?;
    }
    forall r | r in rows && r.key == key && r.completed.Some? ensures r.completed.value <= end {
      assert At(r, Completed).Some?;
    }
    if forall r | r in rows && r.key == key :: r.created.None? { assert !Observed(rows, key, Created); }
    forall q | q in rows && q.key == key && q.created.Some?
               && forall r | r in rows && r.key == key && r.created.Some? :: q.created.value <= r.created.value
      ensures t.queueSeconds == if start - q.created.value > 0.0 then start - q.created.value else 0.0
    {
      assert At(q, Created) == Some(q.created.value);
      assert IsEarliest(rows, key, Created, q.created.value);
    }
    if r :| r in rows && r.key == key && Flagged(r) { assert r.started.value < r.created.value; }
    if r :| r in rows && r.key == key && r.created.Some? && r.started.Some? && r.started.value < r.created.value {
      assert Flagged(r);
    }
  }

  // ---------------------------------------------------------------- the computation

  function Values(rows: seq<Row>, f: Field): seq<real> {
    if rows == [] then []
    else (if At(rows[0], f).Some? then [At(rows[0], f).value] else []) + Values(rows[1..], f)
  }

  lemma {:induction false} ValuesMembers(rows: seq<Row>, f: Field)
    ensures Values(rows, f) == [] <==> forall r | r in rows :: At(r, f).None?
    ensures forall r | r in rows && At(r, f).Some? :: At(r, f).value in Values(rows, f)
    ensures forall v | v in Values(rows, f) :: exists r :: r in rows && At(r, f) == Some(v)
    decreases |rows|
  {
    if rows != [] {
      ValuesMembers(rows[1..], f);
      assert rows == [rows[0]] + rows[1..];
    }
  }

  function Min(vs: seq<real>): (m: real)
    requires vs != []
    ensures m in vs && forall v | v in vs :: m <= v
  {
    assert vs == [vs[0]] + vs[1..];
    if |vs| == 1 then vs[0] else var m := Min(vs[1..]); if vs[0] <= m then vs[0] else m
  }

  function Max(vs: seq<real>): (m: real)
    requires vs != []
    ensures m in vs && forall v | v in vs :: v <= m
  {
    assert vs == [vs[0]] + vs[1..];
    if |vs| == 1 then vs[0] else var m := Max(vs[1..]); if vs[0] >= m then vs[0] else m
  }

  lemma {:induction false} LegsMembers(rows: seq<Row>, key: Node)
    ensures forall r :: r in Legs(rows, key) <==> r in rows && r.key == key
    decreases |rows|
  {
    if rows != [] {
      LegsMembers(rows[..|rows| - 1], key);
      assert rows == rows[..|rows| - 1] + [rows[|rows| - 1]];
    }
  }

  lemma ValuesObserved(rows: seq<Row>, key: Node, f: Field)
    ensures Values(Legs(rows, key), f) != [] <==> Observed(rows, key, f)
  {
    LegsMembers(rows, key);
    ValuesMembers(Legs(rows, key), f);
  }

  lemma ValuesExtremes(rows: seq<Row>, key: Node, f: Field)
    requires Observed(rows, key, f)
    ensures Values(Legs(rows, key), f) != []
    ensures IsEarliest(rows, key, f, Min(Values(Legs(rows, key), f)))
    ensures IsLatest(rows, key, f, Max(Values(Legs(rows, key), f)))
  {
    LegsMembers(rows, key);
    ValuesObserved(rows, key, f);
    var legs := Legs(rows, key);
    var vs := Values(legs, f);
    ValuesMembers(legs, f);
    var lo, hi := Min(vs), Max(vs);
    var a :| a in legs && At(a, f) == Some(lo);
    var b :| b in legs && At(b, f) == Some(hi);
    forall r | r in rows && r.key == key && At(r, f).Some? ensures lo <= At(r, f).value <= hi {
      assert r in legs;
    }
  }

  lemma EarliestIsUnique(rows: seq<Row>, key: Node, f: Field, a: real, b: real)
    requires IsEarliest(rows, key, f, a) && IsEarliest(rows, key, f, b)
    ensures a == b
  {
  }

  /** The raw queue of dag.py:170, before the clamp. */
  function RawQueue(created: seq<real>, firstStart: real): real {
    if created == [] then 0.0 else firstStart - Min(created)
  }

  lemma RawQueueFits(rows: seq<Row>, key: Node, start: real)
    ensures QueueFits(rows, key, start, Clamp(RawQueue(Values(Legs(rows, key), Created), start)))
  {
    ValuesObserved(rows, key, Created);
    if Observed(rows, key, Created) {
      ValuesExtremes(rows, key, Created);
      EarliestFits(rows, key, start, Min(Values(Legs(rows, key), Created)));
    }
  }

  lemma EarliestFits(rows: seq<Row>, key: Node, start: real, created: real)
    requires IsEarliest(rows, key, Created, created)
    ensures QueueFits(rows, key, start, Clamp(start - created))
  {
    forall c | IsEarliest(rows, key, Created, c) ensures c == created {
      EarliestIsUnique(rows, key, Created, c, created);
    }
  }

  lemma FlaggedLegs(rows: seq<Row>, key: Node)
    ensures (exists r :: r in Legs(rows, key) && Flagged(r)) <==> exists r :: r in rows && r.key == key && Flagged(r)
  {
    LegsMembers(rows, key);
  }

  /** One key's entries, all missing-aware (dag.py:164-193). */
  method SpanOf(rows: seq<Row>, key: Node, entries: seq<Row>) returns (timing: Option<NodeTiming>)
    requires entries == Legs(rows, key)
    ensures timing.Some? <==> Observed(rows, key, Started) && Observed(rows, key, Completed)
    ensures timing.Some? ==> Spanned(rows, key, timing.value)
  {
    var created, started, completed := Values(entries, Created), Values(entries, Started), Values(entries, Completed);
    ValuesObserved(rows, key, Started);
    ValuesObserved(rows, key, Completed);
    hide Observed, IsEarliest, IsLatest, Clamp, Flagged, QueueFits;
    if started == [] || completed == [] {
      return None;
    }
    var firstStart, lastEnd := Min(started), Max(completed);
    ValuesExtremes(rows, key, Started);
    ValuesExtremes(rows, key, Completed);
    RawQueueFits(rows, key, firstStart);
    var unknown := AnyFlagged(entries);
    FlaggedLegs(rows, key);
    hide Legs, Values, RawQueue;
    var t := NodeTiming(key, Clamp(RawQueue(created, firstStart)), Clamp(lastEnd - firstStart), |entries|, unknown);
    assert IsSpan(rows, key, t, firstStart, lastEnd);
    timing := Some(t);
  }

  method AnyFlagged(entries: seq<Row>) returns (found: bool)
    ensures found <==> exists r :: r in entries && Flagged(r)
  {
    found := false;
    for i := 0 to |entries|
      invariant found <==> exists j :: 0 <= j < i && Flagged(entries[j])
    {
      found := found || Flagged(entries[i]);
    }
  }

  ghost predicate IsGrouped(rows: seq<Row>, grouped: map<Node, seq<Row>>) {
    && (forall k | k in grouped :: grouped[k] == Legs(rows, k))
    && (forall k | k !in grouped :: Legs(rows, k) == [])
  }

  method GroupRows(rows: seq<Row>) returns (grouped: map<Node, seq<Row>>)
    ensures IsGrouped(rows, grouped)
  {
    grouped := map[];
    for i := 0 to |rows|
      invariant IsGrouped(rows[..i], grouped)
    {
      var row := rows[i];
      assert rows[..i + 1][..i] == rows[..i];
      var entries := if row.key in grouped then grouped[row.key] else [];
      grouped := grouped[row.key := entries + [row]];
    }
    assert rows[..|rows|] == rows;
  }

  method AggregateSpans(rows: seq<Row>) returns (out: Timings)
    ensures IsAggregate(rows, out)
  {
    var grouped := GroupRows(rows);
    out := map[];
    var todo := grouped.Keys;
    hide Spanned;
    while todo != {}
      invariant todo <= grouped.Keys
      invariant forall k :: k in out <==>
        k in grouped && k !in todo && Observed(rows, k, Started) && Observed(rows, k, Completed)
      invariant forall k | k in out :: Spanned(rows, k, out[k])
    {
      var k :| k in todo;
      var timing := SpanOf(rows, k, grouped[k]);
      if timing.Some? {
        out := out[k := timing.value];
      }
      todo := todo - {k};
    }
    forall k | Observed(rows, k, Started) ensures k in grouped {
      LegsMembers(rows, k);
    }
  }

  // ---------------------------------------------------------------- consequences

  /** The clamps make every weight non-negative: the premise of the path theorems. */
  lemma SpansAreNonNegative(rows: seq<Row>, out: Timings)
    requires IsAggregate(rows, out)
    ensures NonNegative(out)
  {
    forall k | k in out ensures out[k].TotalSeconds() >= 0.0 {
      var start, end :| IsSpan(rows, k, out[k], start, end);
      if Observed(rows, k, Created) { ValuesExtremes(rows, k, Created); }
    }
  }

  lemma {:induction false} LegsCount(rows: seq<Row>, key: Node)
    ensures forall r :: multiset(Legs(rows, key))[r] == if r.key == key then multiset(rows)[r] else 0
    decreases |rows|
  {
    if rows != [] {
      LegsCount(rows[..|rows| - 1], key);
      assert rows == rows[..|rows| - 1] + [rows[|rows| - 1]];
    }
  }

  lemma LegsPermute(a: seq<Row>, b: seq<Row>, key: Node)
    requires multiset(a) == multiset(b)
    ensures |Legs(a, key)| == |Legs(b, key)|
  {
    LegsCount(a, key);
    LegsCount(b, key);
    assert multiset(Legs(a, key)) == multiset(Legs(b, key));
    assert |multiset(Legs(a, key))| == |Legs(a, key)| && |multiset(Legs(b, key))| == |Legs(b, key)|;
  }

  lemma SameMembers(a: seq<Row>, b: seq<Row>)
    requires multiset(a) == multiset(b)
    ensures forall r :: r in a <==> r in b
  {
    assert forall r :: r in a <==> r in multiset(a);
    assert forall r :: r in b <==> r in multiset(b);
  }

  lemma SameObserved(a: seq<Row>, b: seq<Row>, key: Node, f: Field)
    requires multiset(a) == multiset(b)
    ensures Observed(a, key, f) <==> Observed(b, key, f)
  {
    SameMembers(a, b);
  }

  lemma SpanIsUnique(a: seq<Row>, b: seq<Row>, key: Node, t: NodeTiming, u: NodeTiming)
    requires multiset(a) == multiset(b)
    requires Spanned(a, key, t) && Spanned(b, key, u)
    ensures t == u
  {
    var s, e :| IsSpan(a, key, t, s, e);
    var s', e' :| IsSpan(b, key, u, s', e');
    SameMembers(a, b);
    LegsPermute(a, b, key);
    EarliestIsUnique(a, key, Started, s, s');
    assert e == e';
    if Observed(a, key, Created) {
      ValuesExtremes(a, key, Created);
      var c := Min(Values(Legs(a, key), Created));
      assert IsEarliest(b, key, Created, c);
    }
  }

  /** Row order cannot matter: permuted rows aggregate to the same timings. */
  lemma AggregateIgnoresOrder(a: seq<Row>, b: seq<Row>, out: Timings, out': Timings)
    requires multiset(a) == multiset(b) && IsAggregate(a, out) && IsAggregate(b, out')
    ensures out == out'
  {
    hide Spanned, Observed;
    forall k ensures k in out <==> k in out' {
      SameObserved(a, b, k, Started);
      SameObserved(a, b, k, Completed);
    }
    forall k | k in out ensures out[k] == out'[k] {
      SpanIsUnique(a, b, k, out[k], out'[k]);
    }
  }

  ghost predicate AnEarliestStarterCarriesCreated(rows: seq<Row>, key: Node, start: real) {
    exists r :: r in rows && r.key == key && r.started == Some(start) && r.created.Some?
  }

  /** A negative raw queue is always announced, provided one of the earliest starters carries a creation time. */
  lemma ClampIsAnnounced(rows: seq<Row>, key: Node, t: NodeTiming, start: real, end: real, created: real)
    requires IsSpan(rows, key, t, start, end) && IsEarliest(rows, key, Created, created)
    requires AnEarliestStarterCarriesCreated(rows, key, start)
    ensures start < created ==> t.queueUnknown
  {
    var r :| r in rows && r.key == key && r.started == Some(start) && r.created.Some?;
    assert At(r, Created) == r.created;
    assert start < created ==> Flagged(r);
  }

  /** A clamped queue stays unannounced exactly when no leg's own times contradict each other; then no earliest
      starter has a creation time, and the creation time in use comes from a leg that started later. */
  lemma ClampIsSilentExactly(rows: seq<Row>, key: Node, t: NodeTiming, start: real, end: real, created: real)
    requires IsSpan(rows, key, t, start, end) && IsEarliest(rows, key, Created, created) && start < created
    ensures t.queueSeconds == 0.0
    ensures !t.queueUnknown <==>
              forall r | r in rows && r.key == key && r.created.Some? && r.started.Some? :: r.created.value <= r.started.value
    ensures !t.queueUnknown ==> !AnEarliestStarterCarriesCreated(rows, key, start)
  {
    if AnEarliestStarterCarriesCreated(rows, key, start) {
      ClampIsAnnounced(rows, key, t, start, end, created);
    }
  }

  /** Queue and exec add up to the observed span exactly when neither clamp fires; so an unflagged node whose last
      completion is not before its first start adds up, under the same proviso. */
  lemma AddsUpExactly(rows: seq<Row>, key: Node, t: NodeTiming, start: real, end: real, created: real)
    requires IsSpan(rows, key, t, start, end) && IsEarliest(rows, key, Created, created)
    ensures t.TotalSeconds() == end - created <==> created <= start <= end
    ensures !t.queueUnknown && AnEarliestStarterCarriesCreated(rows, key, start) && start <= end ==>
              t.TotalSeconds() == end - created
  {
    if AnEarliestStarterCarriesCreated(rows, key, start) {
      ClampIsAnnounced(rows, key, t, start, end, created);
    }
  }

  function SilentRows(): seq<Row> {
    [Row("a", None, Some(0.0), Some(70.0)), Row("a", Some(50.0), Some(60.0), Some(80.0))]
  }

  /** Without that proviso the clamp can be silent: here the only earliest starter has none. */
  lemma ClampCanBeSilent() returns (t: NodeTiming, start: real, end: real, created: real)
    ensures IsSpan(SilentRows(), "a", t, start, end) && IsEarliest(SilentRows(), "a", Created, created)
    ensures start < created && t.queueSeconds == 0.0 && !t.queueUnknown
  {
    var rows := SilentRows();
    var first, second := rows[0], rows[1];
    assert first in rows && second in rows && forall r | r in rows :: r == first || r == second;
    t, start, end, created := NodeTiming("a", 0.0, 80.0, 2, false), 0.0, 80.0, 50.0;
    assert At(first, Started) == Some(start) && At(second, Completed) == Some(end) && At(second, Created) == Some(created);
    TwoLegs(first, second);
    EarliestFits(rows, "a", start, created);
    assert Clamp(start - created) == 0.0 && Clamp(end - start) == 80.0;
  }

  lemma TwoLegs(a: Row, b: Row)
    requires a.key == b.key
    ensures Legs([a, b], a.key) == [a, b]
  {
    assert [a, b][..1] == [a] && [a][..0] == [];
    assert Legs([a], a.key) == [a];
  }

  // ---------------------------------------------------------------- per-leg durations

  datatype Leg = Leg(key: Node, queueSeconds: real, execSeconds: real)

  ghost predicate IsSlowestLeg(legs: seq<Leg>, i: nat, t: NodeTiming) {
    && i < |legs| && legs[i].key == t.key
    && t.queueSeconds == legs[i].queueSeconds && t.execSeconds == legs[i].execSeconds
    && (forall j | 0 <= j < |legs| && legs[j].key == t.key ::
          legs[j].queueSeconds + legs[j].execSeconds <= t.TotalSeconds())
    && (forall j | 0 <= j < i && legs[j].key == t.key ::
          legs[j].queueSeconds + legs[j].execSeconds < t.TotalSeconds())
  }

  function LegCount(legs: seq<Leg>, key: Node): nat {
    if legs == [] then 0
    else LegCount(legs[..|legs| - 1], key) + if legs[|legs| - 1].key == key then 1 else 0
  }

  function Absorb(existing: Option<NodeTiming>, leg: Leg): NodeTiming {
    match existing
    case None => NodeTiming(leg.key, leg.queueSeconds, leg.execSeconds, 1, false)
    case Some(t) =>
      var slower := leg.queueSeconds + leg.execSeconds > t.TotalSeconds();
      t.(queueSeconds := if slower then leg.queueSeconds else t.queueSeconds,
         execSeconds := if slower then leg.execSeconds else t.execSeconds,
         legCount := t.legCount + 1)
  }

  ghost predicate IsNode(legs: seq<Leg>, k: Node, t: Option<NodeTiming>) {
    match t
    case None => LegCount(legs, k) == 0
    case Some(t) => t.key == k && t.legCount == LegCount(legs, k) > 0 && !t.queueUnknown
                    && exists i :: IsSlowestLeg(legs, i, t)
  }

  lemma {:induction false} NoLegs(legs: seq<Leg>, k: Node)
    ensures LegCount(legs, k) == 0 <==> forall j | 0 <= j < |legs| :: legs[j].key != k
    decreases |legs|
  {
    if legs != [] { NoLegs(legs[..|legs| - 1], k); }
  }

  lemma LegJoins(legs: seq<Leg>, leg: Leg, k: Node, t: Option<NodeTiming>)
    requires IsNode(legs, k, t)
    ensures IsNode(legs + [leg], k, if leg.key == k then Some(Absorb(t, leg)) else t)
  {
    var all := legs + [leg];
    assert all[..|legs|] == legs;
    if t.None? {
      NoLegs(legs, k);
      if leg.key == k { assert IsSlowestLeg(all, |legs|, Absorb(t, leg)); }
    } else {
      var i :| IsSlowestLeg(legs, i, t.value);
      if leg.key == k {
        var u := Absorb(t, leg);
        assert IsSlowestLeg(all, if u.TotalSeconds() > t.value.TotalSeconds() then |legs| else i, u);
      } else {
        assert IsSlowestLeg(all, i, t.value);
      }
    }
  }

  function Lookup(m: Timings, k: Node): Option<NodeTiming> { if k in m then Some(m[k]) else None }

  /** Legs run concurrently, so a node takes its first slowest leg, never the sum (dag.py:197-214). */
  method AggregateLegs(legs: seq<Leg>) returns (out: Timings)
    ensures forall k :: IsNode(legs, k, Lookup(out, k))
  {
    out := map[];
    for n := 0 to |legs|
      invariant forall k :: IsNode(legs[..n], k, Lookup(out, k))
    {
      assert legs[..n + 1] == legs[..n] + [legs[n]];
      var before := out;
      forall k ensures IsNode(legs[..n + 1], k, if legs[n].key == k then Some(Absorb(Lookup(out, k), legs[n]))
                                               else Lookup(out, k)) {
        LegJoins(legs[..n], legs[n], k, Lookup(out, k));
      }
      hide IsNode, Absorb;
      out := out[legs[n].key := Absorb(Lookup(out, legs[n].key), legs[n])];
      assert forall k :: Lookup(out, k) == if legs[n].key == k then Some(Absorb(Lookup(before, k), legs[n]))
                                           else Lookup(before, k);
    }
    assert legs[..|legs|] == legs;
  }
}
