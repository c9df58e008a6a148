/** Cutting text into lines two ways: `split(newline)` and `splitlines()`. */
module Lines {
  import opened Common
  import opened Text

  // ---------------------------------------------------------------- split and join on a newline

  /** The newline a file is edited with. */
  predicate IsNewline(nl: string) { nl == "\n" || nl == "\r\n" }

  /** `s.find(nl)`. */
  function Find(s: string, nl: string): (at: Option<nat>)
    requires nl != ""
    ensures at.Some? ==> at.value + |nl| <= |s| && s[at.value..at.value + |nl|] == nl
  {
    if |s| < |nl| then None
    else if s[..|nl|] == nl then Some(0)
    else
      var rest := Find(s[1..], nl);
      if rest.Some? then
        assert s[rest.value + 1..rest.value + 1 + |nl|] == s[1..][rest.value..rest.value + |nl|];
        Some(rest.value + 1)
      else None
  }

  function Split(s: string, nl: string): (parts: seq<string>)
    requires nl != ""
    ensures |parts| > 0
    decreases |s|
  {
    var at := Find(s, nl);
    if at.None? then [s] else [s[..at.value]] + Split(s[at.value + |nl|..], nl)
  }

  function Join(parts: seq<string>, nl: string): string
    requires |parts| > 0
  {
    if |parts| == 1 then parts[0] else parts[0] + nl + Join(parts[1..], nl)
  }

  lemma {:induction false} JoinSplit(s: string, nl: string)
    requires nl != ""
    ensures Join(Split(s, nl), nl) == s
    decreases |s|
  {
    var at := Find(s, nl);
    if at.Some? {
      JoinSplit(s[at.value + |nl|..], nl);
      assert s == s[..at.value] + nl + s[at.value + |nl|..];
    }
  }

  ghost predicate NoneContain(parts: seq<string>, nl: string)
    requires nl != ""
  {
    forall i | 0 <= i < |parts| :: Find(parts[i], nl) == None
  }

  lemma {:induction false} FindPrefix(s: string, nl: string)
    requires nl != "" && Find(s, nl).Some?
    ensures forall k | 0 <= k <= Find(s, nl).value :: Find(s[..k], nl) == None
  {
    var at := Find(s, nl).value;
    forall k | 0 <= k <= at ensures Find(s[..k], nl) == None {
      if at > 0 && k > 0 {
        FindPrefix(s[1..], nl);
        assert s[..k][1..] == s[1..][..k - 1];
        if |nl| <= k { assert s[..k][..|nl|] == s[..|nl|]; }
      }
    }
  }

  lemma {:induction false} SplitPieces(s: string, nl: string)
    requires nl != ""
    ensures NoneContain(Split(s, nl), nl)
    decreases |s|
  {
    var at := Find(s, nl);
    if at.Some? {
      FindPrefix(s, nl);
      SplitPieces(s[at.value + |nl|..], nl);
      var rest := Split(s[at.value + |nl|..], nl);
      hide Find, Split;
      forall i | 0 <= i < |rest| + 1 ensures Find(([s[..at.value]] + rest)[i], nl) == None {
        assert i > 0 ==> Find(rest[i - 1], nl) == None;
      }
    }
  }

  /** A newline cannot begin inside a piece and end in the newline after it: neither form overlaps itself. */
  lemma NotAtStart(piece: string, nl: string, rest: string)
    requires IsNewline(nl) && piece != "" && Find(piece, nl) == None
    ensures (piece + nl + rest)[..|nl|] != nl
  {
    var s := piece + nl + rest;
    if |piece| >= |nl| {
      assert s[..|nl|] == piece[..|nl|];
    } else {
      assert s[..|nl|][1] == '\r';
    }
  }

  lemma {:induction false} FindAfterPiece(piece: string, nl: string, rest: string)
    requires IsNewline(nl) && Find(piece, nl) == None
    ensures Find(piece + nl + rest, nl) == Some(|piece|)
    decreases |piece|
  {
    var s := piece + nl + rest;
    if piece == "" {
      assert s[..|nl|] == nl;
    } else {
      NotAtStart(piece, nl, rest);
      assert s[1..] == piece[1..] + nl + rest;
      FindAfterPiece(piece[1..], nl, rest);
    }
  }

  lemma SplitStep(piece: string, nl: string, rest: string)
    requires IsNewline(nl) && Find(piece, nl) == None
    ensures Split(piece + nl + rest, nl) == [piece] + Split(rest, nl)
  {
    var s := piece + nl + rest;
    FindAfterPiece(piece, nl, rest);
    assert s[..|piece|] == piece && s[|piece| + |nl|..] == rest;
  }

  lemma {:induction false} SplitJoin(parts: seq<string>, nl: string)
    requires IsNewline(nl) && |parts| > 0 && NoneContain(parts, nl)
    ensures Split(Join(parts, nl), nl) == parts
    decreases |parts|
  {
    hide Find;
    if |parts| > 1 {
      var tail := parts[1..];
      assert forall i | 0 <= i < |tail| :: tail[i] == parts[i + 1];
      SplitStep(parts[0], nl, Join(tail, nl));
      SplitJoin(tail, nl);
    } else {
      assert parts == [parts[0]];
    }
  }

  lemma {:induction false} NoLineFeedNoNewline(s: string, nl: string)
    requires IsNewline(nl) && '\n' !in s
    ensures Find(s, nl) == None
    decreases |s|
  {
    if |s| >= |nl| {
      NoLineFeedNoNewline(s[1..], nl);
      assert s[..|nl|][|nl| - 1] == s[|nl| - 1] && s[|nl| - 1] in s;
    }
  }

  lemma {:induction false} JoinConcat(a: seq<string>, b: seq<string>, nl: string)
    requires |a| > 0 && |b| > 0
    ensures Join(a + b, nl) == Join(a, nl) + nl + Join(b, nl)
    decreases |a|
  {
    if |a| == 1 {
      assert (a + b)[1..] == b;
    } else {
      assert (a + b)[1..] == a[1..] + b;
      JoinConcat(a[1..], b, nl);
    }
  }

  // ---------------------------------------------------------------- splitlines

  /** Every character `str.splitlines` ends a line at. */
  predicate IsBreak(c: char) {
    c in "\n\r" || c as int in {0x0b, 0x0c, 0x1c, 0x1d, 0x1e, 0x85, 0x2028, 0x2029}
  }

  function LineLength(s: string): (n: nat)
    ensures n <= |s| && (n < |s| ==> IsBreak(s[n])) && forall k | 0 <= k < n :: !IsBreak(s[k])
  {
    if s == "" || IsBreak(s[0]) then 0 else 1 + LineLength(s[1..])
  }

  function BreakLength(s: string): nat
    requires s != ""
  {
    if |s| >= 2 && s[0] == '\r' && s[1] == '\n' then 2 else 1
  }

  function SplitLines(s: string): seq<string>
    decreases |s|
  {
    if s == "" then []
    else
      var n := LineLength(s);
      if n == |s| then [s] else [s[..n]] + SplitLines(s[n + BreakLength(s[n..])..])
  }

  lemma {:induction false} LineLengthIs(s: string, n: nat)
    requires n <= |s| && (n < |s| ==> IsBreak(s[n])) && forall k | 0 <= k < n :: !IsBreak(s[k])
    ensures LineLength(s) == n
  {
    if n > 0 { LineLengthIs(s[1..], n - 1); }
  }

  ghost predicate Unbroken(s: string) { forall k | 0 <= k < |s| :: !IsBreak(s[k]) }

  ghost predicate AllUnbroken(parts: seq<string>) { forall i | 0 <= i < |parts| :: Unbroken(parts[i]) }

  function DropFinalEmpty(parts: seq<string>): seq<string>
    requires |parts| > 0
  {
    if parts[|parts| - 1] == "" then parts[..|parts| - 1] else parts
  }

  /** `brk` is one line break, not the first half of a CRLF that `rest` would complete. */
  ghost predicate IsOneBreak(brk: string, rest: string) {
    brk == "\r\n" || (|brk| == 1 && IsBreak(brk[0]) && (brk[0] == '\r' && rest != "" ==> rest[0] != '\n'))
  }

  lemma SplitLinesOnce(s: string)
    requires LineLength(s) < |s|
    ensures var n := LineLength(s); SplitLines(s) == [s[..n]] + SplitLines(s[n + BreakLength(s[n..])..])
  {
  }

  lemma Slices<T>(x: seq<T>, y: seq<T>, z: seq<T>)
    ensures (x + y + z)[..|x|] == x && (x + y + z)[|x|..] == y + z && (x + y + z)[|x| + |y|..] == z
  {
  }

  lemma FirstBreak(line: string, brk: string, rest: string)
    requires Unbroken(line) && IsOneBreak(brk, rest)
    ensures LineLength(line + brk + rest) == |line| && BreakLength(brk + rest) == |brk| && |brk| > 0
  {
    LineLengthIs(line + brk + rest, |line|);
  }

  lemma FirstLine(line: string, brk: string, rest: string)
    requires Unbroken(line) && IsOneBreak(brk, rest)
    ensures SplitLines(line + brk + rest) == [line] + SplitLines(rest)
  {
    FirstBreak(line, brk, rest);
    hide *;
    Slices(line, brk, rest);
    SplitLinesOnce(line + brk + rest);
  }

  lemma CutFirstLine(s: string) returns (line: string, brk: string, rest: string)
    requires exists k :: 0 <= k < |s| && IsBreak(s[k])
    ensures s == line + brk + rest && Unbroken(line) && IsOneBreak(brk, rest)
  {
    var n := LineLength(s);
    var m := BreakLength(s[n..]);
    line, brk, rest := s[..n], s[n..n + m], s[n + m..];
    if m == 2 {
      assert s[n..][0] == s[n] && s[n..][1] == s[n + 1];
      assert brk == [s[n], s[n + 1]] == "\r\n";
    } else {
      assert brk == [s[n]];
      if rest != "" { assert rest[0] == s[n + 1] && s[n..][0] == s[n] && s[n..][1] == s[n + 1]; }
    }
  }

  predicate EndsLine(s: string) { s == "" || s[|s| - 1] == '\n' }

  /** Text that ends in a line feed can be cut there. */
  lemma {:induction false} SplitLinesConcat(a: string, b: string)
    requires EndsLine(a)
    ensures SplitLines(a + b) == SplitLines(a) + SplitLines(b)
    decreases |a|
  {
    if a == "" {
      assert a + b == b && SplitLines(a) == [];
    } else {
      assert IsBreak(a[|a| - 1]);
      var line, brk, rest := CutFirstLine(a);
      TailEndsLine(a, line, brk, rest);
      hide *;
      FirstLine(line, brk, rest);
      FirstLine(line, brk, rest + b);
      SplitLinesConcat(rest, b);
      Regroup(line + brk, rest, b);
      Regroup([line], SplitLines(rest), SplitLines(b));
    }
  }

  lemma Regroup<T>(x: seq<T>, y: seq<T>, z: seq<T>)
    ensures x + y + z == x + (y + z)
  {
  }

  lemma TailEndsLine(a: string, line: string, brk: string, rest: string)
    requires a == line + brk + rest && a != "" && EndsLine(a) && IsOneBreak(brk, rest)
    ensures EndsLine(rest) && |rest| < |a| && forall b: string :: IsOneBreak(brk, rest + b)
  {
    if rest != "" { assert a[|a| - 1] == rest[|rest| - 1]; } else { assert a[|a| - 1] == brk[|brk| - 1]; }
  }

  /** When the newline is the only line break, both ways of cutting agree but for a final empty piece. */
  lemma {:induction false} SplitLinesJoin(parts: seq<string>, nl: string)
    requires IsNewline(nl) && |parts| > 0 && AllUnbroken(parts)
    ensures SplitLines(Join(parts, nl)) == DropFinalEmpty(parts)
    decreases |parts|
  {
    if |parts| == 1 {
      LineLengthIs(parts[0], |parts[0]|);
      assert parts == [parts[0]];
    } else {
      hide SplitLines, Unbroken;
      SplitLinesJoin(parts[1..], nl);
      FirstLine(parts[0], nl, Join(parts[1..], nl));
      DropFinalEmptyTail(parts);
    }
  }

  lemma DropFinalEmptyTail(parts: seq<string>)
    requires |parts| > 1
    ensures DropFinalEmpty(parts) == [parts[0]] + DropFinalEmpty(parts[1..])
  {
    assert parts[1..][|parts| - 2] == parts[|parts| - 1];
  }

  lemma UnbrokenLines(s: string, nl: string)
    requires IsNewline(nl) && Unbroken(s)
    ensures SplitLines(s + nl) == [s] && SplitLines(s) == if s == "" then [] else [s]
  {
    LineLengthIs(s, |s|);
    FirstLine(s, nl, "");
    assert s + nl + "" == s + nl && SplitLines("") == [];
  }

  /** A newline behind the text closes its last break, as the second half of a CRLF, or follows it. */
  lemma NewlineFollows(brk: string, rest: string, nl: string)
    requires IsNewline(nl) && IsOneBreak(brk, rest)
    ensures IsOneBreak(brk, rest + nl) || (brk == "\r" && rest == "" && nl == "\n")
  {
    if brk != "\r\n" && rest != "" { assert (rest + nl)[0] == rest[0]; }
  }

  lemma ClosedReturn(line: string)
    requires Unbroken(line)
    ensures SplitLines(line + "\r" + "" + "\n") == SplitLines(line + "\r" + "")
  {
    assert IsOneBreak("\r", "") && IsOneBreak("\r\n", "");
    FirstLine(line, "\r", "");
    FirstLine(line, "\r\n", "");
    assert line + "\r" + "" + "\n" == line + "\r\n" + "";
  }

  ghost predicate ClosesTo(lines: seq<string>, closed: seq<string>) { closed == lines || closed == lines + [""] }

  lemma ClosingStep(line: string, brk: string, rest: string, nl: string)
    requires Unbroken(line) && IsOneBreak(brk, rest) && IsOneBreak(brk, rest + nl)
    requires ClosesTo(SplitLines(rest), SplitLines(rest + nl))
    ensures ClosesTo(SplitLines(line + brk + rest), SplitLines(line + brk + rest + nl))
  {
    FirstLine(line, brk, rest);
    FirstLine(line, brk, rest + nl);
    hide SplitLines, Unbroken, IsOneBreak;
    Regroup(line + brk, rest, nl);
    Regroup([line], SplitLines(rest), [""]);
  }

  /** A closing newline adds at most an empty line. */
  lemma {:induction false} ClosingNewline(s: string, nl: string)
    requires IsNewline(nl)
    ensures ClosesTo(SplitLines(s), SplitLines(s + nl))
    decreases |s|
  {
    if Unbroken(s) {
      UnbrokenLines(s, nl);
    } else {
      var line, brk, rest := CutFirstLine(s);
      NewlineFollows(brk, rest, nl);
      assert |rest| < |s|;
      hide SplitLines, Unbroken, IsOneBreak, ClosesTo;
      if IsOneBreak(brk, rest + nl) {
        ClosingNewline(rest, nl);
        ClosingStep(line, brk, rest, nl);
      } else {
        ClosedReturn(line);
        SameCloses(SplitLines(s));
      }
    }
  }

  lemma SameCloses(lines: seq<string>)
    ensures ClosesTo(lines, lines)
  {
  }

  // ---------------------------------------------------------------- counting the breaks a split does not see

  function Breaks(s: string): nat {
    if s == "" then 0 else (if IsBreak(s[0]) then 1 else 0) + Breaks(s[1..])
  }

  /** Line breaks inside the pieces: `splitlines` ends lines there, `split` does not. */
  function Foreign(parts: seq<string>): nat {
    if parts == [] then 0 else Breaks(parts[0]) + Foreign(parts[1..])
  }

  ghost predicate NoCrlf(s: string) {
    forall k | 0 <= k < |s| - 1 :: s[k] == '\r' ==> s[k + 1] != '\n'
  }

  /** A piece whose breaks are single characters, also where the newline follows it. */
  ghost predicate Fits(piece: string, nl: string) {
    NoCrlf(piece) && (nl == "\n" && piece != "" ==> piece[|piece| - 1] != '\r')
  }

  ghost predicate AllFit(parts: seq<string>, nl: string) {
    forall k | 0 <= k < |parts| :: Fits(parts[k], nl)
  }

  lemma {:induction false} BreaksFrom(s: string, n: nat)
    requires n < |s| && IsBreak(s[n]) && forall k | 0 <= k < n :: !IsBreak(s[k])
    ensures Breaks(s) == 1 + Breaks(s[n + 1..])
    decreases n
  {
    if n > 0 {
      assert s[1..][n..] == s[n + 1..];
      BreaksFrom(s[1..], n - 1);
    }
  }

  lemma {:induction false} NoBreaks(s: string)
    ensures Breaks(s) == 0 <==> Unbroken(s)
    decreases |s|
  {
    if s != "" {
      NoBreaks(s[1..]);
      assert forall k | 0 <= k < |s[1..]| :: s[1..][k] == s[k + 1];
    }
  }

  lemma CutAtBreak(piece: string, nl: string) returns (line: string, brk: string, rest: string)
    requires IsNewline(nl) && Fits(piece, nl) && Breaks(piece) > 0
    ensures piece == line + brk + rest && Unbroken(line) && |brk| == 1
    ensures IsOneBreak(brk, rest + nl) && Fits(rest, nl) && Breaks(piece) == 1 + Breaks(rest)
  {
    NoBreaks(piece);
    var n := LineLength(piece);
    line, brk, rest := piece[..n], [piece[n]], piece[n + 1..];
    BreaksFrom(piece, n);
    SuffixFits(piece, nl, n);
    hide Fits, Breaks;
  }

  lemma SuffixFits(piece: string, nl: string, n: nat)
    requires IsNewline(nl) && Fits(piece, nl) && n < |piece| && IsBreak(piece[n])
    ensures IsOneBreak([piece[n]], piece[n + 1..] + nl) && Fits(piece[n + 1..], nl)
  {
    var rest := piece[n + 1..];
    assert forall k | 0 <= k < |rest| :: rest[k] == piece[n + 1 + k];
    assert (rest + nl)[0] == if rest == "" then nl[0] else piece[n + 1];
  }

  lemma {:induction false} PieceLines(piece: string, nl: string)
    requires IsNewline(nl) && Fits(piece, nl)
    ensures |SplitLines(piece + nl)| == 1 + Breaks(piece)
    decreases |piece|
  {
    hide SplitLines;
    if Breaks(piece) == 0 {
      NoBreaks(piece);
      FirstLine(piece, nl, "");
      assert piece + nl + "" == piece + nl;
      EmptyHasNoLines();
    } else {
      var line, brk, rest := CutAtBreak(piece, nl);
      FirstLine(line, brk, rest + nl);
      assert piece + nl == line + brk + (rest + nl);
      PieceLines(rest, nl);
    }
  }

  lemma EmptyHasNoLines()
    ensures SplitLines("") == []
  {
  }

  /** Text cut into pieces has one line a piece, and one more for every break the pieces contain. */
  lemma {:induction false} PiecesLines(parts: seq<string>, nl: string)
    requires IsNewline(nl) && |parts| > 0 && AllFit(parts, nl)
    ensures |SplitLines(Join(parts, nl) + nl)| == |parts| + Foreign(parts)
    decreases |parts|
  {
    hide SplitLines, Breaks, Fits;
    PieceLines(parts[0], nl);
    if |parts| == 1 {
      assert Foreign(parts[1..]) == 0;
    } else {
      var tail := parts[1..];
      assert forall k | 0 <= k < |tail| :: tail[k] == parts[k + 1];
      PiecesLines(tail, nl);
      SplitLinesConcat(parts[0] + nl, Join(tail, nl) + nl);
      assert Join(parts, nl) + nl == (parts[0] + nl) + (Join(tail, nl) + nl);
    }
  }

  lemma {:induction false} LinesAtMost(s: string)
    ensures |SplitLines(s)| <= 1 + Breaks(s)
    decreases |s|
  {
    if s != "" && LineLength(s) < |s| {
      var n := LineLength(s);
      var rest := s[n + BreakLength(s[n..])..];
      BreaksFrom(s, n);
      AfterBreak(s, n);
      SplitLinesOnce(s);
      LinesAtMost(rest);
      hide *;
      assert |SplitLines(s)| == 1 + |SplitLines(rest)|;
    } else {
      NoBreaks(s);
    }
  }

  lemma AfterBreak(s: string, n: nat)
    requires n < |s|
    ensures Breaks(s[n + BreakLength(s[n..])..]) <= Breaks(s[n + 1..])
  {
    if BreakLength(s[n..]) == 2 { assert s[n + 1..][1..] == s[n + 2..]; }
  }

  lemma {:induction false} ForeignConcat(a: seq<string>, b: seq<string>)
    ensures Foreign(a + b) == Foreign(a) + Foreign(b)
    decreases |a|
  {
    if a == [] {
      assert a + b == b;
    } else {
      assert (a + b)[1..] == a[1..] + b;
      ForeignConcat(a[1..], b);
    }
  }

  lemma {:induction false} FindNoCrlf(s: string)
    requires Find(s, "\r\n") == None
    ensures NoCrlf(s)
    decreases |s|
  {
    if |s| >= 2 {
      FindNoCrlf(s[1..]);
      assert s[..2][0] == s[0] && s[..2][1] == s[1];
      forall k | 0 <= k < |s| - 1 && s[k] == '\r' ensures s[k + 1] != '\n' {
        if k > 0 { assert s[1..][k - 1] == s[k] && s[1..][k] == s[k + 1]; }
      }
    }
  }

  lemma {:induction false} NoLineFeed(s: string)
    requires Find(s, "\n") == None
    ensures '\n' !in s
    decreases |s|
  {
    if s != "" {
      NoLineFeed(s[1..]);
      assert s[..1] == [s[0]];
      assert s == [s[0]] + s[1..];
    }
  }

  lemma {:induction false} FrontPiecesFit(parts: seq<string>)
    requires |parts| > 0 && NoneContain(parts, "\n") && NoCrlf(Join(parts, "\n"))
    ensures forall k | 0 <= k < |parts| - 1 :: Fits(parts[k], "\n")
    decreases |parts|
  {
    if |parts| > 1 {
      var tail := parts[1..];
      var whole := Join(parts, "\n");
      assert forall k | 0 <= k < |tail| :: tail[k] == parts[k + 1];
      assert forall k | 0 <= k < |Join(tail, "\n")| :: Join(tail, "\n")[k] == whole[|parts[0]| + 1 + k];
      hide Find, Join;
      FrontPiecesFit(tail);
      NoLineFeed(parts[0]);
      LastIsNotReturn(parts[0], whole);
    }
  }

  lemma LastIsNotReturn(piece: string, whole: string)
    requires NoCrlf(whole) && |whole| > |piece| && whole[..|piece|] == piece && whole[|piece|] == '\n' && '\n' !in piece
    ensures Fits(piece, "\n")
  {
    if piece != "" { assert whole[|piece| - 1] == piece[|piece| - 1]; }
  }
}
