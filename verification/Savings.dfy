/** Edge removal replayed over many runs and summarised by its median (src/cadence/simulate.py:85-115). */
module Savings {
  import opened Common
  import opened Dag
  import opened CriticalPath
  import opened Replay

  datatype RunInput = RunInput(edges: Graph, timings: Timings)

  datatype Summary = Summary(secondsPerRun: real, low: real, high: real, nRuns: nat)

  // ---------------------------------------------------------------- the median

  ghost predicate AscendingReals(s: seq<real>) {
    forall i, j | 0 <= i < j < |s| :: s[i] <= s[j]
  }

  function InsertReal(x: real, s: seq<real>): seq<real> {
    if s == [] then [x] else if x <= s[0] then [x] + s else [s[0]] + InsertReal(x, s[1..])
  }

  function SortReals(s: seq<real>): seq<real> {
    if s == [] then [] else InsertReal(s[0], SortReals(s[1..]))
  }

  /** How many samples lie at or below (`low`) or at or above a level. */
  function Count(s: seq<real>, m: real, low: bool): nat {
    if s == [] then 0
    else (if OnSide(s[0], m, low) then 1 else 0) + Count(s[1..], m, low)
  }

  predicate OnSide(y: real, m: real, low: bool) { if low then y <= m else y >= m }

  /** Each sample counts once. */
  lemma {:induction false} CountMeans(s: seq<real>, m: real, low: bool)
    ensures Count(s, m, low) <= |s|
    ensures Count(s, m, low) == |s| <==> forall i | 0 <= i < |s| :: OnSide(s[i], m, low)
    decreases |s|
  {
    if s != [] {
      var tail := s[1..];
      CountMeans(tail, m, low);
      assert Count(s, m, low) == (if OnSide(s[0], m, low) then 1 else 0) + Count(tail, m, low);
      assert forall i | 0 < i < |s| :: s[i] == tail[i - 1];
      assert forall i | 0 <= i < |tail| :: tail[i] == s[i + 1];
    }
  }

  lemma {:induction false} InsertRealSorts(x: real, s: seq<real>)
    requires AscendingReals(s)
    ensures AscendingReals(InsertReal(x, s)) && |InsertReal(x, s)| == |s| + 1
    ensures forall y | y in InsertReal(x, s) :: y == x || y in s
  {
    if s != [] && x > s[0] {
      InsertRealSorts(x, s[1..]);
      var rest := InsertReal(x, s[1..]);
      forall j | 0 <= j < |rest| ensures s[0] <= rest[j] && (rest[j] == x || rest[j] in s) {
        assert rest[j] in rest;
      }
    }
  }

  lemma {:induction false} InsertRealCounts(x: real, s: seq<real>, m: real, low: bool)
    ensures Count(InsertReal(x, s), m, low) == Count([x], m, low) + Count(s, m, low)
  {
    if s != [] && x > s[0] {
      InsertRealCounts(x, s[1..], m, low);
      assert ([s[0]] + InsertReal(x, s[1..]))[1..] == InsertReal(x, s[1..]);
    } else {
      assert ([x] + s)[1..] == s;
    }
  }

  lemma {:induction false} SortRealsSorts(s: seq<real>)
    ensures AscendingReals(SortReals(s)) && |SortReals(s)| == |s|
  {
    if s != [] {
      SortRealsSorts(s[1..]);
      InsertRealSorts(s[0], SortReals(s[1..]));
    }
  }

  lemma {:induction false} SortRealsCounts(s: seq<real>, m: real, low: bool)
    ensures Count(SortReals(s), m, low) == Count(s, m, low)
  {
    if s != [] {
      SortRealsCounts(s[1..], m, low);
      InsertRealCounts(s[0], SortReals(s[1..]), m, low);
    }
  }

  function Middle(t: seq<real>): real
    requires |t| > 0
  {
    if |t| % 2 == 1 then t[|t| / 2] else (t[|t| / 2 - 1] + t[|t| / 2]) / 2.0
  }

  /** `statistics.median`: the middle sample, or the mean of the two middle ones. */
  function Median(s: seq<real>): real
    requires |s| > 0
  {
    SortRealsSorts(s);
    Middle(SortReals(s))
  }

  lemma {:induction false} CountPrefix(s: seq<real>, k: nat, m: real)
    requires k <= |s| && forall i | 0 <= i < k :: s[i] <= m
    ensures Count(s, m, true) >= k
  {
    if k > 0 { CountPrefix(s[1..], k - 1, m); }
  }

  lemma {:induction false} CountSuffix(s: seq<real>, k: nat, m: real)
    requires k <= |s| && forall i | k <= i < |s| :: s[i] >= m
    ensures Count(s, m, false) >= |s| - k
  {
    if s != [] { CountSuffix(s[1..], if k == 0 then 0 else k - 1, m); }
  }

  lemma MiddleSplits(t: seq<real>)
    requires |t| > 0 && AscendingReals(t)
    ensures 2 * Count(t, Middle(t), true) >= |t| && 2 * Count(t, Middle(t), false) >= |t|
  {
    var h, m := |t| / 2, Middle(t);
    CountPrefix(t, if |t| % 2 == 1 then h + 1 else h, m);
    CountSuffix(t, h, m);
  }

  /** At least half of the samples lie on each side of the median. */
  lemma MedianSplits(s: seq<real>)
    requires |s| > 0
    ensures 2 * Count(s, Median(s), true) >= |s| && 2 * Count(s, Median(s), false) >= |s|
  {
    SortRealsSorts(s);
    SortRealsCounts(s, Median(s), true);
    SortRealsCounts(s, Median(s), false);
    MiddleSplits(SortReals(s));
  }

  lemma {:induction false} SortRealsPermutes(s: seq<real>)
    ensures multiset(SortReals(s)) == multiset(s)
  {
    if s != [] {
      SortRealsPermutes(s[1..]);
      InsertRealAdds(s[0], SortReals(s[1..]));
      assert s == [s[0]] + s[1..];
    }
  }

  lemma {:induction false} InsertRealAdds(x: real, s: seq<real>)
    ensures multiset(InsertReal(x, s)) == multiset(s) + multiset{x}
  {
    if s != [] && x > s[0] {
      InsertRealAdds(x, s[1..]);
      assert s == [s[0]] + s[1..];
    }
  }

  lemma HeadIsMinimal(a: seq<real>, b: seq<real>)
    requires a != [] && b != [] && AscendingReals(a) && multiset(a) == multiset(b)
    ensures a[0] <= b[0]
  {
    assert b[0] in multiset(a);
    var i :| 0 <= i < |a| && a[i] == b[0];
  }

  lemma TailOf(s: seq<real>)
    requires s != []
    ensures multiset(s[1..]) == multiset(s) - multiset{s[0]}
  {
    assert s == [s[0]] + s[1..];
  }

  lemma {:induction false} SortedIsUnique(a: seq<real>, b: seq<real>)
    requires AscendingReals(a) && AscendingReals(b) && multiset(a) == multiset(b)
    ensures a == b
    decreases |a|
  {
    assert |a| == |multiset(a)| == |multiset(b)| == |b|;
    if a != [] {
      HeadIsMinimal(a, b);
      HeadIsMinimal(b, a);
      TailOf(a);
      TailOf(b);
      SortedIsUnique(a[1..], b[1..]);
      assert a == [a[0]] + a[1..] && b == [b[0]] + b[1..];
    }
  }

  /** The sample in order has the median in its middle: one entry, or halfway between two. */
  lemma MedianOfOrdered(s: seq<real>, t: seq<real>)
    requires |s| > 0 && AscendingReals(t) && multiset(t) == multiset(s)
    ensures |t| == |s|
    ensures |s| % 2 == 1 ==> Median(s) == t[|s| / 2]
    ensures |s| % 2 == 0 ==> 2.0 * Median(s) == t[|s| / 2 - 1] + t[|s| / 2]
  {
    assert |t| == |multiset(t)| == |multiset(s)| == |s|;
    SortRealsSorts(s);
    SortRealsPermutes(s);
    SortedIsUnique(SortReals(s), t);
    hide SortReals, AscendingReals;
  }

  lemma {:induction false} CountFinds(s: seq<real>, m: real, low: bool) returns (i: nat)
    requires Count(s, m, low) > 0
    ensures i < |s| && if low then s[i] <= m else s[i] >= m
  {
    if if low then s[0] <= m else s[0] >= m {
      i := 0;
    } else {
      i := CountFinds(s[1..], m, low);
      i := i + 1;
    }
  }

  // ---------------------------------------------------------------- one delta per analysable run

  ghost predicate Counted(run: RunInput) {
    Sortable(run.edges) && run.edges != map[]
  }

  /** `d` is what removing `toNode needs fromNode` saves on this run; with real timings the clamp is idle. */
  ghost predicate IsSaving(run: RunInput, fromNode: Node, toNode: Node, before: Path, after: Path, d: real) {
    var saved := before.totalSeconds - after.totalSeconds;
    && Describes(run.edges, run.timings, Some(before))
    && Describes(WithoutEdge(run.edges, fromNode, toNode), run.timings, Some(after))
    && d == (if saved > 0.0 then saved else 0.0)
    && (NonNegative(run.timings) ==> d == saved && SavingIsBounded(run.edges, fromNode, toNode, before, after))
  }

  ghost predicate HasSaving(run: RunInput, fromNode: Node, toNode: Node, d: real) {
    exists before, after :: IsSaving(run, fromNode, toNode, before, after, d)
  }

  /** The sample: zero deltas are kept, runs that cannot be analysed are not. */
  ghost predicate AreDeltas(runs: seq<RunInput>, fromNode: Node, toNode: Node, ds: seq<real>) {
    if runs == [] then ds == []
    else
      var k := |runs| - 1;
      if Counted(runs[k]) then
        |ds| > 0 && AreDeltas(runs[..k], fromNode, toNode, ds[..|ds| - 1])
        && HasSaving(runs[k], fromNode, toNode, ds[|ds| - 1])
      else AreDeltas(runs[..k], fromNode, toNode, ds)
  }

  lemma DeltaAppend(runs: seq<RunInput>, i: nat, u: Node, v: Node, ds: seq<real>, d: real)
    requires i < |runs| && AreDeltas(runs[..i], u, v, ds)
    ensures Counted(runs[i]) && HasSaving(runs[i], u, v, d) ==> AreDeltas(runs[..i + 1], u, v, ds + [d])
    ensures !Counted(runs[i]) ==> AreDeltas(runs[..i + 1], u, v, ds)
  {
    hide Counted, HasSaving;
    assert runs[..i + 1][..i] == runs[..i];
    assert (ds + [d])[..|ds|] == ds;
  }

  /** One run of the sample: skipped exactly when its graph cannot be analysed (simulate.py:99-102). */
  method ReplayOne(run: RunInput, fromNode: Node, toNode: Node) returns (delta: Option<real>)
    ensures delta.Some? <==> Counted(run)
    ensures delta.Some? ==> HasSaving(run, fromNode, toNode, delta.value)
  {
    var before, after := ReplayWithoutEdge(run.edges, run.timings, fromNode, toNode);
    if before.None? || after.None? {
      return None;
    }
    var saved := before.value.totalSeconds - after.value.totalSeconds;
    var d := if saved > 0.0 then saved else 0.0;
    OneSaving(run, fromNode, toNode, before.value, after.value, d);
    delta := Some(d);
  }

  lemma OneSaving(run: RunInput, u: Node, v: Node, before: Path, after: Path, d: real)
    requires Describes(run.edges, run.timings, Some(before))
    requires Describes(WithoutEdge(run.edges, u, v), run.timings, Some(after))
    requires NonNegative(run.timings) ==> SavingIsBounded(run.edges, u, v, before, after)
    requires d == var saved := before.totalSeconds - after.totalSeconds; if saved > 0.0 then saved else 0.0
    ensures HasSaving(run, u, v, d)
  {
    hide Describes, NonNegative;
    assert IsSaving(run, u, v, before, after, d);
  }

  function Summarise(ds: seq<real>): Option<Summary> {
    if ds == [] then None else Some(Summary(Median(ds), Median(ds), Median(ds), |ds|))
  }

  method ReplayEdgeRemovalSavings(runs: seq<RunInput>, fromNode: Node, toNode: Node)
    returns (result: Option<Summary>)
    ensures exists ds :: AreDeltas(runs, fromNode, toNode, ds) &&
              if ds == [] then result == None
              else result == Some(Summary(Median(ds), Median(ds), Median(ds), |ds|))
  {
    hide Counted, HasSaving;
    var ds: seq<real> := [];
    for i := 0 to |runs|
      invariant AreDeltas(runs[..i], fromNode, toNode, ds)
    {
      var delta := ReplayOne(runs[i], fromNode, toNode);
      DeltaAppend(runs, i, fromNode, toNode, ds, if delta.Some? then delta.value else 0.0);
      if delta.Some? {
        ds := ds + [delta.value];
      }
    }
    assert runs[..|runs|] == runs;
    result := Summarise(ds);
  }

  ghost predicate Within(r: RunInput, bound: real) {
    NonNegative(r.timings) && forall cp | Describes(r.edges, r.timings, Some(cp)) :: cp.totalSeconds <= bound
  }

  predicate Modest(d: real, bound: real) {
    0.0 <= 2.0 * d <= bound
  }

  lemma OneBound(r: RunInput, u: Node, v: Node, d: real, bound: real)
    requires HasSaving(r, u, v, d) && Within(r, bound)
    ensures Modest(d, bound)
  {
    var before, after :| IsSaving(r, u, v, before, after, d);
    hide NonNegative, Describes;
  }

  lemma {:induction false} DeltaBounds(runs: seq<RunInput>, u: Node, v: Node, ds: seq<real>, bound: real)
    requires AreDeltas(runs, u, v, ds)
    requires forall i | 0 <= i < |runs| :: Within(runs[i], bound)
    ensures forall i | 0 <= i < |ds| :: Modest(ds[i], bound)
    decreases |runs|
  {
    hide Within, Modest, HasSaving, Counted;
    if runs != [] {
      var k := |runs| - 1;
      var front := runs[..k];
      assert forall i | 0 <= i < k :: front[i] == runs[i];
      if Counted(runs[k]) {
        var n := |ds| - 1;
        assert AreDeltas(front, u, v, ds[..n]) && HasSaving(runs[k], u, v, ds[n]);
        hide *;
        DeltaBounds(front, u, v, ds[..n], bound);
        OneBound(runs[k], u, v, ds[n], bound);
        assert forall i | 0 <= i < n :: ds[..n][i] == ds[i];
      } else {
        hide *;
        DeltaBounds(front, u, v, ds, bound);
      }
    }
  }

  /** No quoted saving exceeds half of the slowest replayed run, and none is negative. */
  lemma QuotedSavingIsModest(runs: seq<RunInput>, u: Node, v: Node, ds: seq<real>, bound: real)
    requires AreDeltas(runs, u, v, ds) && ds != []
    requires forall i | 0 <= i < |runs| :: Within(runs[i], bound)
    ensures Modest(Median(ds), bound)
  {
    DeltaBounds(runs, u, v, ds, bound);
    MedianSplits(ds);
    hide AreDeltas, Within, Median;
    var i := CountFinds(ds, Median(ds), true);
    var j := CountFinds(ds, Median(ds), false);
    assert Modest(ds[i], bound) && Modest(ds[j], bound);
  }
}
