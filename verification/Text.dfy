/** Python's text primitives on code points: whitespace, `strip`, `split`, `splitlines`, `join`. */
module Text {

  /** `str.isspace`, which is also what `\s` matches. */
  predicate IsSpace(c: char) {
    || c in "\t\n\r " || c as int in {0x0b, 0x0c, 0x1c, 0x1d, 0x1e, 0x1f, 0x85, 0xa0, 0x1680}
    || 0x2000 <= c as int <= 0x200a || c as int in {0x2028, 0x2029, 0x202f, 0x205f, 0x3000}
  }

  function LStrip(s: string): string {
    if s != "" && IsSpace(s[0]) then LStrip(s[1..]) else s
  }

  function RStrip(s: string): string {
    if s != "" && IsSpace(s[|s| - 1]) then RStrip(s[..|s| - 1]) else s
  }

  function Strip(s: string): string { RStrip(LStrip(s)) }

  /** `s.split(c, 1)[0]`. */
  function Before(s: string, c: char): string {
    if s == "" || s[0] == c then "" else [s[0]] + Before(s[1..], c)
  }

  function Lower(s: string): string {
    if s == "" then "" else [if 'A' <= s[0] <= 'Z' then (s[0] as int + 32) as char else s[0]] + Lower(s[1..])
  }

  predicate Trimmed(s: string) {
    s != "" && !IsSpace(s[0]) && !IsSpace(s[|s| - 1])
  }

  lemma {:induction false} BeforeFinds(a: string, rest: string, c: char)
    requires c !in a && (rest == "" || rest[0] == c)
    ensures Before(a + rest, c) == a
    decreases |a|
  {
    if a != "" {
      assert (a + rest)[1..] == a[1..] + rest;
      BeforeFinds(a[1..], rest, c);
    } else {
      assert a + rest == rest;
    }
  }

  /** `s.split(c)` for a one-character separator. */
  function SplitOn(s: string, c: char): (parts: seq<string>)
    ensures |parts| > 0
    decreases |s|
  {
    var head := Before(s, c);
    BeforeIsPrefix(s, c);
    if |head| == |s| then [s] else [head] + SplitOn(s[|head| + 1..], c)
  }

  lemma {:induction false} BeforeIsPrefix(s: string, c: char)
    ensures |Before(s, c)| <= |s| && Before(s, c) == s[..|Before(s, c)|] && c !in Before(s, c)
    ensures |Before(s, c)| < |s| ==> s[|Before(s, c)|] == c
  {
    if s != "" && s[0] != c { BeforeIsPrefix(s[1..], c); }
  }

  lemma SplitHead(a: string, rest: string, c: char)
    requires c !in a
    ensures SplitOn(a + [c] + rest, c) == [a] + SplitOn(rest, c)
    ensures SplitOn(a, c) == [a]
  {
    BeforeFinds(a, [c] + rest, c);
    assert a + [c] + rest == a + ([c] + rest);
    assert (a + [c] + rest)[|a| + 1..] == rest;
    BeforeFinds(a, "", c);
    assert a + "" == a;
  }

  lemma {:induction false} LStripStarts(s: string)
    ensures LStrip(s) == "" || !IsSpace(LStrip(s)[0])
  {
    if s != "" && IsSpace(s[0]) { LStripStarts(s[1..]); }
  }

  lemma {:induction false} RStripEnds(s: string)
    ensures RStrip(s) == "" || !IsSpace(RStrip(s)[|RStrip(s)| - 1])
    ensures RStrip(s) <= s
    decreases |s|
  {
    if s != "" && IsSpace(s[|s| - 1]) { RStripEnds(s[..|s| - 1]); }
  }

  /** What survives stripping starts with something that is not whitespace. */
  lemma StripStarts(s: string)
    ensures Strip(s) != "" ==> !IsSpace(Strip(s)[0])
  {
    LStripStarts(s);
    RStripEnds(LStrip(s));
    var t := Strip(s);
    if t != "" { assert t[0] == LStrip(s)[0]; }
  }

  ghost predicate AllSpace(s: string) { forall i | 0 <= i < |s| :: IsSpace(s[i]) }

  lemma {:induction false} LStripCuts(s: string) returns (cut: string)
    ensures s == cut + LStrip(s) && AllSpace(cut)
    decreases |s|
  {
    cut := "";
    if s != "" && IsSpace(s[0]) {
      var rest := LStripCuts(s[1..]);
      cut := [s[0]] + rest;
      assert s == [s[0]] + s[1..];
    }
  }

  lemma {:induction false} RStripCuts(s: string) returns (cut: string)
    ensures s == RStrip(s) + cut && AllSpace(cut)
    decreases |s|
  {
    cut := "";
    if s != "" && IsSpace(s[|s| - 1]) {
      var rest := RStripCuts(s[..|s| - 1]);
      cut := rest + [s[|s| - 1]];
      assert s == s[..|s| - 1] + [s[|s| - 1]];
    }
  }

  /** Stripping takes whitespace, and only whitespace, and all of it, from both ends. */
  lemma StripCuts(s: string) returns (left: string, right: string)
    ensures s == left + Strip(s) + right && AllSpace(left) && AllSpace(right)
    ensures Strip(s) == "" || Trimmed(Strip(s))
  {
    left := LStripCuts(s);
    right := RStripCuts(LStrip(s));
    StripStarts(s);
    RStripEnds(LStrip(s));
  }

  /** `lower` on ASCII: letter by letter. */
  lemma {:induction false} LowerIsPointwise(s: string)
    ensures |Lower(s)| == |s|
    ensures forall i | 0 <= i < |s| ::
              Lower(s)[i] == if 'A' <= s[i] <= 'Z' then (s[i] as int - 'A' as int + 'a' as int) as char else s[i]
  {
    if s != "" { LowerIsPointwise(s[1..]); }
  }

  lemma {:induction false} LStripOf(gap: string, rest: string)
    requires AllSpace(gap) && (rest == "" || !IsSpace(rest[0]))
    ensures LStrip(gap + rest) == rest
    decreases |gap|
  {
    if gap == "" {
      assert gap + rest == rest;
    } else {
      assert (gap + rest)[1..] == gap[1..] + rest;
      LStripOf(gap[1..], rest);
    }
  }

  /** What `lstrip` leaves is what follows the whitespace. */
  lemma LStripMeans(s: string, rest: string)
    ensures LStrip(s) == rest <==>
              (rest == "" || !IsSpace(rest[0])) && exists gap :: AllSpace(gap) && s == gap + rest
  {
    var cut := LStripCuts(s);
    LStripStarts(s);
    if (rest == "" || !IsSpace(rest[0])) && exists gap :: AllSpace(gap) && s == gap + rest {
      var gap :| AllSpace(gap) && s == gap + rest;
      LStripOf(gap, rest);
    }
  }

  /** The whitespace Python knows: control characters that break or separate, and the Unicode blanks. */
  lemma SpacesAreThese(c: char)
    ensures IsSpace(c) <==>
              || 0x09 <= c as int <= 0x0d || 0x1c <= c as int <= 0x20 || c as int in {0x85, 0xa0, 0x1680, 0x2028, 0x2029}
              || 0x2000 <= c as int <= 0x200a || c as int in {0x202f, 0x205f, 0x3000}
  {
  }
}
