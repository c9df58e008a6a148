/** Shared vocabulary: optional values and the code-point order Python's `sorted` puts on strings. */
module Common {

  datatype Option<+T> = None | Some(value: T)

  predicate Less(a: string, b: string) {
    b != "" && (a == "" || a[0] < b[0] || (a[0] == b[0] && Less(a[1..], b[1..])))
  }

  lemma {:induction false} LessTotal(a: string, b: string)
    ensures a == b || Less(a, b) || Less(b, a)
  {
    if a != "" && b != "" && a[0] == b[0] {
      LessTotal(a[1..], b[1..]);
      assert a == [a[0]] + a[1..] && b == [b[0]] + b[1..];
    }
  }

  lemma {:induction false} LessTransitive(a: string, b: string, c: string)
    requires Less(a, b) && Less(b, c)
    ensures Less(a, c)
  {
    if a != "" && a[0] == b[0] && b[0] == c[0] {
      LessTransitive(a[1..], b[1..], c[1..]);
    }
  }

  lemma {:induction false} LessIrreflexive(a: string)
    ensures !Less(a, a)
  {
    if a != "" {
      LessIrreflexive(a[1..]);
    }
  }

  ghost predicate FirstDiffer(a: string, b: string, i: nat) {
    i < |a| && i < |b| && a[..i] == b[..i] && a[i] < b[i]
  }

  lemma DifferShifts(a: string, b: string, i: nat)
    requires a != "" && b != "" && a[0] == b[0]
    ensures FirstDiffer(a, b, i + 1) <==> FirstDiffer(a[1..], b[1..], i)
    ensures !FirstDiffer(a, b, 0)
  {
    if i + 1 < |a| && i + 1 < |b| {
      assert a[..i + 1] == [a[0]] + a[1..][..i] && b[..i + 1] == [b[0]] + b[1..][..i];
      assert a[..i + 1][1..] == a[1..][..i] && b[..i + 1][1..] == b[1..][..i];
    }
  }

  lemma HeadsOfPrefixes(a: string, b: string, i: nat)
    requires 0 < i <= |a| && i <= |b| && a[..i] == b[..i]
    ensures a[0] == b[0]
  {
    assert a[..i][0] == b[..i][0];
  }

  lemma DiffersAtHead(a: string, b: string, i: nat)
    requires a != "" && b != "" && a[0] != b[0] && FirstDiffer(a, b, i)
    ensures i == 0 && a[0] < b[0]
  {
    if i > 0 { HeadsOfPrefixes(a, b, i); }
  }

  lemma DifferAtOnce(a: string, b: string)
    requires a != "" && b != "" && a[0] != b[0]
    ensures (exists i: nat :: FirstDiffer(a, b, i)) <==> a[0] < b[0]
  {
    assert a[..0] == b[..0];
    if a[0] < b[0] { assert FirstDiffer(a, b, 0); }
    if i: nat :| FirstDiffer(a, b, i) { DiffersAtHead(a, b, i); }
  }

  /** Strings in order: one begins the other, or they first differ where it has the smaller character. */
  lemma {:induction false} LessMeans(a: string, b: string)
    ensures Less(a, b) <==> (a != b && a <= b) || exists i: nat :: FirstDiffer(a, b, i)
    decreases |a|
  {
    if a != "" && b != "" {
      if a[0] == b[0] {
        LessMeans(a[1..], b[1..]);
        assert a == [a[0]] + a[1..] && b == [b[0]] + b[1..];
        forall i: nat ensures FirstDiffer(a, b, i + 1) <==> FirstDiffer(a[1..], b[1..], i) { DifferShifts(a, b, i); }
        DifferShifts(a, b, 0);
        hide FirstDiffer;
        if i: nat :| FirstDiffer(a, b, i) { assert FirstDiffer(a[1..], b[1..], i - 1); }
        if i: nat :| FirstDiffer(a[1..], b[1..], i) { assert FirstDiffer(a, b, i + 1); }
      } else {
        DifferAtOnce(a, b);
      }
    }
  }

  ghost predicate Ascending(s: seq<string>) {
    forall i, j | 0 <= i < j < |s| :: s[i] == s[j] || Less(s[i], s[j])
  }

  function Insert(x: string, s: seq<string>): (r: seq<string>)
    ensures multiset(r) == multiset(s) + multiset{x}
  {
    if s == [] then [x]
    else
      assert s == [s[0]] + s[1..];
      if x == s[0] || Less(x, s[0]) then [x] + s else [s[0]] + Insert(x, s[1..])
  }

  lemma {:induction false} InsertAscends(x: string, s: seq<string>)
    requires Ascending(s)
    ensures Ascending(Insert(x, s))
  {
    if s != [] {
      if x == s[0] || Less(x, s[0]) {
        forall j | 0 <= j < |s| ensures x == s[j] || Less(x, s[j]) {
          if x != s[0] && s[0] != s[j] { LessTransitive(x, s[0], s[j]); }
        }
      } else {
        var rest := Insert(x, s[1..]);
        InsertAscends(x, s[1..]);
        LessTotal(x, s[0]);
        forall j | 0 <= j < |rest| ensures s[0] == rest[j] || Less(s[0], rest[j]) {
          assert rest[j] in multiset(rest);
          assert rest[j] == x || rest[j] in s[1..];
        }
      }
    }
  }

  /** `list.sort()` on strings. */
  function Sorted(s: seq<string>): (r: seq<string>)
    ensures Ascending(r)
    ensures multiset(r) == multiset(s)
  {
    if s == [] then []
    else
      assert s == [s[0]] + s[1..];
      InsertAscends(s[0], Sorted(s[1..]));
      Insert(s[0], Sorted(s[1..]))
  }
}
