/** The text-first concurrency fixer: lines are inserted, never re-serialised
    (src/cadence/fixers/concurrency.py). YAML re-parsing is a parameter. */
module ConcurrencyFixer {
  import opened Common
  import opened Text
  import opened Lines

  const APPLIES_TO := "no_run_cancellation"
  const CRLF := "\r\n"
  const LF := "\n"

  // ---------------------------------------------------------------- recognising lines

  predicate StartsWith(s: string, prefix: string) { |s| >= |prefix| && s[..|prefix|] == prefix }

  /** `^jobs:\s*(#.*)?$` */
  predicate IsJobsLine(line: string) {
    StartsWith(line, "jobs:") && (var rest := LStrip(line[5..]); rest == "" || rest[0] == '#')
  }

  /** A comment that sits directly on the key below it. */
  predicate IsAttachedComment(line: string) {
    StartsWith(LStrip(line), "#") && !StartsWith(line, " ")
  }

  /** `^key\s*:` */
  predicate DeclaresKey(line: string, key: string) {
    StartsWith(line, key) && StartsWith(LStrip(line[|key|..]), ":")
  }

  predicate HasTopLevelKey(content: string, key: string) {
    exists i :: 0 <= i < |SplitLines(content)| && DeclaresKey(SplitLines(content)[i], key)
  }

  // ---------------------------------------------------------------- planning

  datatype Plan = Insertion(at: nat, lines: seq<string>) | NoJobsLine | SeveralJobsLines

  function JobsLines(lines: seq<string>): seq<nat> {
    if lines == [] then []
    else
      var k := |lines| - 1;
      JobsLines(lines[..k]) + if IsJobsLine(lines[k]) then [k] else []
  }

  function CommentTop(lines: seq<string>, at: nat): (top: nat)
    requires at <= |lines|
    ensures top <= at && (forall k | top <= k < at :: IsAttachedComment(lines[k]))
    ensures top > 0 ==> !IsAttachedComment(lines[top - 1])
  {
    if at > 0 && IsAttachedComment(lines[at - 1]) then CommentTop(lines, at - 1) else at
  }

  function LeadingSpaces(line: string): nat {
    if line != "" && line[0] == ' ' then 1 + LeadingSpaces(line[1..]) else 0
  }

  function Spaces(n: nat): (s: string)
    ensures |s| == n && forall i | 0 <= i < n :: s[i] == ' '
  {
    seq(n, _ => ' ')
  }

  predicate Measurable(line: string) { Strip(line) != "" && !StartsWith(LStrip(line), "#") }

  /** From the first substantial line below `jobs:`; two spaces when that tells nothing. */
  function ChildIndent(below: seq<string>): string {
    if below == [] then Spaces(2)
    else if !Measurable(below[0]) then ChildIndent(below[1..])
    else if 0 < LeadingSpaces(below[0]) <= 8 then Spaces(LeadingSpaces(below[0])) else Spaces(2)
  }

  function GroupText(): string { "group: " + "${{ github.workflow }}" + "-" + "${{ github.ref }}" }

  function CancelText(): string { "cancel-in-progress: true" }

  function Block(indent: string): seq<string> {
    ["concurrency:", indent + GroupText(), indent + CancelText(), ""]
  }

  function PlanFor(content: string): Plan {
    var lines := SplitLines(content);
    var jobs := JobsLines(lines);
    JobsLinesAreThose(lines);
    if jobs == [] then NoJobsLine
    else if |jobs| > 1 then SeveralJobsLines
    else Insertion(CommentTop(lines, jobs[0]), Block(ChildIndent(lines[jobs[0] + 1..])))
  }

  lemma {:induction false} JobsLinesAreThose(lines: seq<string>)
    ensures forall k :: k in JobsLines(lines) <==> 0 <= k < |lines| && IsJobsLine(lines[k])
    ensures forall i, j | 0 <= i < j < |JobsLines(lines)| :: JobsLines(lines)[i] < JobsLines(lines)[j]
    ensures forall i | 0 <= i < |JobsLines(lines)| :: JobsLines(lines)[i] < |lines|
    decreases |lines|
  {
    if lines != [] { JobsLinesAreThose(lines[..|lines| - 1]); }
  }

  method MeasureIndent(lines: seq<string>, jobsLine: nat) returns (indent: string)
    requires jobsLine < |lines|
    ensures indent == ChildIndent(lines[jobsLine + 1..])
  {
    var i := jobsLine + 1;
    while i < |lines|
      invariant jobsLine < i <= |lines|
      invariant ChildIndent(lines[jobsLine + 1..]) == ChildIndent(lines[i..])
    {
      assert lines[i..][0] == lines[i] && lines[i..][1..] == lines[i + 1..];
      if Measurable(lines[i]) {
        var width := LeadingSpaces(lines[i]);
        return if 0 < width <= 8 then Spaces(width) else Spaces(2);
      }
      i := i + 1;
    }
    indent := Spaces(2);
  }

  method PlanInsertion(content: string) returns (plan: Plan)
    ensures plan == PlanFor(content)
  {
    hide SplitLines, JobsLines, IsJobsLine, IsAttachedComment, ChildIndent, Block;
    var lines := SplitLines(content);
    var jobs := JobsLines(lines);
    JobsLinesAreThose(lines);
    if jobs == [] {
      return NoJobsLine;
    }
    if |jobs| > 1 {
      return SeveralJobsLines;
    }
    var at := jobs[0];
    while at > 0 && IsAttachedComment(lines[at - 1])
      invariant at <= jobs[0] && CommentTop(lines, jobs[0]) == CommentTop(lines, at)
    {
      at := at - 1;
    }
    var indent := MeasureIndent(lines, jobs[0]);
    plan := Insertion(at, Block(indent));
  }

  // ---------------------------------------------------------------- editing and verifying

  function NewlineOf(content: string): string { if Find(content, CRLF).Some? then CRLF else LF }

  /** Python slices clamp. */
  function Clamp(at: nat, parts: seq<string>): nat { if at <= |parts| then at else |parts| }

  function Spliced(parts: seq<string>, at: nat, block: seq<string>): seq<string> {
    parts[..Clamp(at, parts)] + block + parts[Clamp(at, parts)..]
  }

  function Edit(content: string, at: nat, block: seq<string>): string {
    var nl := NewlineOf(content);
    Join(Spliced(Split(content, nl), at, block), nl)
  }

  /** What `preview` learns from the parsed workflow. */
  datatype Facts = Facts(path: string, parses: bool, declaresConcurrency: bool, deployShaped: bool)

  datatype Reason = WrongKind | WrongWorkflow | Unparsable | HasConcurrency | DeployShaped | CannotPlace
                  | TouchesOtherLines | RejectedByParser

  datatype Result = Proposed(after: string) | Declined(why: Reason)

  function Preview(facts: Facts, content: string, kind: string, key: string, accepts: string -> bool): Result {
    if kind != APPLIES_TO then Declined(WrongKind)
    else if key != APPLIES_TO + ":" + facts.path then Declined(WrongWorkflow)
    else if !facts.parses then Declined(Unparsable)
    else if facts.declaresConcurrency || HasTopLevelKey(content, "concurrency") then Declined(HasConcurrency)
    else if facts.deployShaped then Declined(DeployShaped)
    else
      var plan := PlanFor(content);
      if !plan.Insertion? then Declined(CannotPlace)
      else
        var nl := NewlineOf(content);
        var after := Edit(content, plan.at, plan.lines);
        if Split(after, nl) != Spliced(Split(content, nl), plan.at, plan.lines) then Declined(TouchesOtherLines)
        else if !accepts(after) then Declined(RejectedByParser)
        else Proposed(after)
  }

  // ---------------------------------------------------------------- what the lines and answers mean

  lemma PrefixMeans(s: string, prefix: string)
    ensures StartsWith(s, prefix) <==> exists rest :: s == prefix + rest
  {
    if StartsWith(s, prefix) { assert s == prefix + s[|prefix|..]; }
    if rest :| s == prefix + rest { assert s[..|prefix|] == prefix; }
  }

  /** A `jobs:` line holds nothing else but blanks and a comment. */
  lemma JobsLineMeans(line: string)
    ensures IsJobsLine(line) <==>
              exists gap, rest :: line == "jobs:" + (gap + rest) && AllSpace(gap) && (rest == "" || rest[0] == '#')
  {
    if IsJobsLine(line) {
      var gap := LStripCuts(line[5..]);
      var rest := LStrip(line[5..]);
      assert line == line[..5] + line[5..] == "jobs:" + (gap + rest);
    }
    if gap, rest :| line == "jobs:" + (gap + rest) && AllSpace(gap) && (rest == "" || rest[0] == '#') {
      assert line[..5] == "jobs:" && line[5..] == gap + rest;
      LStripOf(gap, rest);
    }
  }

  ghost predicate IsKeyed(line: string, key: string, gap: string, rest: string) {
    line == key + (gap + (":" + rest)) && AllSpace(gap)
  }

  /** A line declares a top-level key when it starts with it, and a colon follows it after blanks at most. */
  lemma KeyLineMeans(line: string, key: string)
    ensures DeclaresKey(line, key) <==>
              exists gap, rest :: IsKeyed(line, key, gap, rest)
  {
    if DeclaresKey(line, key) {
      var tail := line[|key|..];
      var gap := LStripCuts(tail);
    var rest := LStrip(tail);
      assert rest == ":" + rest[1..] && line == line[..|key|] + tail == key + (gap + (":" + rest[1..]));
      assert IsKeyed(line, key, gap, rest[1..]);
    }
    if gap, rest :| IsKeyed(line, key, gap, rest) {
      assert line[..|key|] == key && line[|key|..] == gap + (":" + rest);
      LStripOf(gap, ":" + rest);
      assert (":" + rest)[..1] == ":";
    }
  }

  lemma SpaceFirst(line: string)
    ensures StartsWith(line, " ") <==> line != "" && line[0] == ' '
  {
    if line != "" { assert line[..1] == [line[0]]; }
  }

  /** The line is the comment sign behind blanks, of which the first is no space. */
  ghost predicate IsSigned(line: string, gap: string, rest: string) {
    line == gap + ("#" + rest) && AllSpace(gap) && (gap == "" || gap[0] != ' ')
  }

  lemma AttachedSplits(line: string) returns (gap: string, rest: string)
    requires IsAttachedComment(line)
    ensures IsSigned(line, gap, rest)
  {
    gap := LStripCuts(line);
    var tail := LStrip(line);
    PrefixMeans(tail, "#");
    rest :| tail == "#" + rest;
    SpaceFirst(line);
  }

  lemma SignAttaches(line: string, gap: string, rest: string)
    requires IsSigned(line, gap, rest)
    ensures IsAttachedComment(line)
  {
    LStripOf(gap, "#" + rest);
    PrefixMeans("#" + rest, "#");
    SpaceFirst(line);
    hide LStrip, IsSpace, StartsWith;
    assert line[0] == if gap == "" then '#' else gap[0];
  }

  lemma AttachedMeans(line: string)
    ensures IsAttachedComment(line) <==> exists gap, rest :: IsSigned(line, gap, rest)
  {
    if IsAttachedComment(line) { var gap, rest := AttachedSplits(line); }
    if gap, rest :| IsSigned(line, gap, rest) { SignAttaches(line, gap, rest); }
  }

  /** A line tells the indent when its first character that is not blank does not open a comment. */
  lemma MeasurableMeans(line: string)
    ensures Measurable(line) <==>
              exists gap, rest :: line == gap + rest && AllSpace(gap) && rest != "" && !IsSpace(rest[0]) && rest[0] != '#'
  {
    var gap := LStripCuts(line);
    var rest := LStrip(line);
    LStripStarts(line);
    RStripOfSolid(rest);
    assert rest != "" ==> (StartsWith(rest, "#") <==> rest[0] == '#') by { if rest != "" { assert rest[..1] == [rest[0]]; } }
    if g, r :| line == g + r && AllSpace(g) && r != "" && !IsSpace(r[0]) && r[0] != '#' {
      LStripOf(g, r);
    }
  }

  lemma {:induction false} RStripOfSolid(s: string)
    requires s == "" || !IsSpace(s[0])
    ensures RStrip(s) == "" <==> s == ""
    decreases |s|
  {
    if |s| > 1 && IsSpace(s[|s| - 1]) { RStripOfSolid(s[..|s| - 1]); }
  }

  lemma {:induction false} SpacesLead(n: nat, rest: string)
    requires rest == "" || rest[0] != ' '
    ensures LeadingSpaces(Spaces(n) + rest) == n
    decreases n
  {
    var s := Spaces(n) + rest;
    if n > 0 {
      assert s[1..] == Spaces(n - 1) + rest;
      SpacesLead(n - 1, rest);
    } else {
      assert s == rest;
    }
  }

  /** The indent is that of the first line that tells one, if it has one to eight spaces; else two spaces. */
  lemma {:induction false} IndentMeans(below: seq<string>, k: nat, n: nat, rest: string)
    requires k <= |below| && forall j | 0 <= j < k :: !Measurable(below[j])
    requires k < |below| ==> Measurable(below[k]) && below[k] == Spaces(n) + rest && (rest == "" || rest[0] != ' ')
    ensures ChildIndent(below) == Spaces(if k < |below| && 1 <= n <= 8 then n else 2)
    decreases k
  {
    if k < |below| { SpacesLead(n, rest); }
    if k > 0 {
      assert forall j | 0 <= j < k - 1 :: below[1..][j] == below[j + 1];
      IndentMeans(below[1..], k - 1, n, rest);
    }
  }

  ghost predicate OnlyJobsLine(lines: seq<string>, i: nat) {
    i < |lines| && forall k | 0 <= k < |lines| :: IsJobsLine(lines[k]) <==> k == i
  }

  lemma NoJobsCounted(lines: seq<string>)
    ensures JobsLines(lines) == [] <==> forall k | 0 <= k < |lines| :: !IsJobsLine(lines[k])
  {
    JobsLinesAreThose(lines);
    hide IsJobsLine;
    var jobs := JobsLines(lines);
    if jobs != [] { assert jobs[0] in jobs; }
    if k :| 0 <= k < |lines| && IsJobsLine(lines[k]) { assert k in jobs; }
  }

  lemma OneJobsCounted(lines: seq<string>)
    ensures |JobsLines(lines)| == 1 <==> exists i: nat :: OnlyJobsLine(lines, i)
  {
    JobsLinesAreThose(lines);
    hide IsJobsLine, JobsLines;
    var jobs := JobsLines(lines);
    if |jobs| == 1 {
      assert jobs[0] in jobs;
      forall k | 0 <= k < |lines| ensures IsJobsLine(lines[k]) <==> k == jobs[0] { assert k in jobs ==> k == jobs[0]; }
      assert OnlyJobsLine(lines, jobs[0]);
    }
    if i: nat :| OnlyJobsLine(lines, i) { OneJobsLine(lines, i); }
  }

  lemma PlanCases(content: string)
    ensures PlanFor(content).NoJobsLine? <==> JobsLines(SplitLines(content)) == []
    ensures PlanFor(content).Insertion? <==> |JobsLines(SplitLines(content))| == 1
  {
    hide SplitLines, JobsLines;
  }

  /** There is a plan exactly when there is one jobs line; the refusals tell none from several. */
  lemma PlanMeans(content: string)
    ensures PlanFor(content).Insertion? <==> exists i: nat :: OnlyJobsLine(SplitLines(content), i)
    ensures PlanFor(content).NoJobsLine? <==>
              forall k | 0 <= k < |SplitLines(content)| :: !IsJobsLine(SplitLines(content)[k])
  {
    PlanCases(content);
    NoJobsCounted(SplitLines(content));
    OneJobsCounted(SplitLines(content));
    hide *;
  }

  ghost predicate Keyed(line: string, key: string) { exists gap, rest :: IsKeyed(line, key, gap, rest) }

  /** A top-level key is declared on some line, at its start. */
  lemma TopLevelKeyMeans(content: string, key: string)
    ensures HasTopLevelKey(content, key) <==>
              exists i :: 0 <= i < |SplitLines(content)| && Keyed(SplitLines(content)[i], key)
  {
    forall line ensures Keyed(line, key) <==> DeclaresKey(line, key) { KeyLineMeans(line, key); }
    hide Keyed, DeclaresKey, SplitLines;
  }

  /** An edit is proposed for exactly the findings and files it is meant for, and only that edit. */
  lemma PreviewMeans(facts: Facts, content: string, kind: string, key: string, accepts: string -> bool)
    ensures var answer := Preview(facts, content, kind, key, accepts);
            && (answer.Proposed? <==>
                  && kind == "no_run_cancellation" && key == "no_run_cancellation" + ":" + facts.path
                  && facts.parses && !facts.declaresConcurrency && !facts.deployShaped
                  && !HasTopLevelKey(content, "concurrency") && PlanFor(content).Insertion?
                  && accepts(Edit(content, PlanFor(content).at, PlanFor(content).lines)))
            && (answer.Proposed? ==> answer.after == Edit(content, PlanFor(content).at, PlanFor(content).lines))
            && (facts.deployShaped || facts.declaresConcurrency || !facts.parses ==> answer.Declined?)
  {
    NeverTouchesOtherLines(facts, content, kind, key, accepts);
    hide PlanFor, Edit, Spliced, NewlineOf, HasTopLevelKey;
  }

  lemma GroupSays()
    ensures GroupText() == "group: " + "${{ github.workflow }}" + "-" + "${{ github.ref }}"
    ensures CancelText() == "cancel-in-progress: true"
  {
  }

  /** What is put in: cancel superseded runs, per workflow and ref. */
  lemma BlockSays(n: nat)
    ensures Block(Spaces(n)) ==
              ["concurrency:", Spaces(n) + ("group: " + "${{ github.workflow }}" + "-" + "${{ github.ref }}"),
               Spaces(n) + "cancel-in-progress: true", ""]
  {
    GroupSays();
    var block, indent := Block(Spaces(n)), Spaces(n);
    assert block[0] == "concurrency:" && block[3] == "";
    assert block[1] == indent + GroupText() && block[2] == indent + CancelText();
    hide Block, GroupText, CancelText, Spaces;
  }

  // ---------------------------------------------------------------- the edit is a pure insertion

  ghost predicate IsBlock(lines: seq<string>) { exists n: nat :: lines == Block(Spaces(n)) }

  lemma {:induction false} IndentIsSpaces(below: seq<string>) returns (n: nat)
    ensures ChildIndent(below) == Spaces(n)
    decreases |below|
  {
    n := 2;
    if below != [] {
      if !Measurable(below[0]) {
        n := IndentIsSpaces(below[1..]);
      } else if 0 < LeadingSpaces(below[0]) <= 8 {
        n := LeadingSpaces(below[0]);
      }
    }
  }

  lemma PlanIsBlock(content: string)
    requires PlanFor(content).Insertion?
    ensures IsBlock(PlanFor(content).lines)
  {
    var lines := SplitLines(content);
    JobsLinesAreThose(lines);
    var n := IndentIsSpaces(lines[JobsLines(lines)[0] + 1..]);
    hide SplitLines, JobsLines, ChildIndent, Block, Spaces;
    assert PlanFor(content).lines == Block(Spaces(n));
  }

  lemma IndentedHasNone(n: nat, text: string, nl: string)
    requires IsNewline(nl) && '\n' !in text
    ensures Find(Spaces(n) + text, nl) == None
  {
    hide Find;
    NoLineFeedNoNewline(Spaces(n) + text, nl);
  }

  lemma BlockHasNoNewline(n: nat, nl: string)
    requires IsNewline(nl)
    ensures NoneContain(Block(Spaces(n)), nl)
  {
    TextsHaveNoLineFeed();
    hide GroupText, CancelText, Find, Spaces;
    NoLineFeedNoNewline("concurrency:", nl);
    IndentedHasNone(n, GroupText(), nl);
    IndentedHasNone(n, CancelText(), nl);
    NoLineFeedNoNewline("", nl);
  }

  lemma TextsHaveNoLineFeed()
    ensures '\n' !in GroupText() && '\n' !in CancelText() && '\n' !in "concurrency:"
  {
  }

  lemma SplicedKeepsBoth(parts: seq<string>, at: nat, block: seq<string>)
    ensures var k, all := Clamp(at, parts), Spliced(parts, at, block);
            k + |block| <= |all| && all[k..k + |block|] == block && all[..k] + all[k + |block|..] == parts
  {
  }

  lemma NoneContainConcat(a: seq<string>, b: seq<string>, nl: string)
    requires nl != "" && NoneContain(a, nl) && NoneContain(b, nl)
    ensures NoneContain(a + b, nl)
  {
    hide Find;
  }

  lemma SplicedContainsNone(parts: seq<string>, at: nat, block: seq<string>, nl: string)
    requires nl != "" && NoneContain(parts, nl) && NoneContain(block, nl)
    ensures NoneContain(Spliced(parts, at, block), nl)
  {
    hide Find;
    var k := Clamp(at, parts);
    assert forall i | 0 <= i < |parts[k..]| :: parts[k..][i] == parts[k + i];
    NoneContainConcat(parts[..k], block, nl);
    NoneContainConcat(parts[..k] + block, parts[k..], nl);
  }

  /** Splitting the result finds the original lines with the block between them; dropping it restores the file. */
  lemma EditIsPureInsertion(content: string, at: nat, block: seq<string>)
    requires IsBlock(block)
    ensures var nl := NewlineOf(content); var parts := Split(content, nl); var k := Clamp(at, parts);
            var cut := Split(Edit(content, at, block), nl);
            && cut == Spliced(parts, at, block)
            && k + |block| <= |cut| && cut[k..k + |block|] == block
            && cut[..k] + cut[k + |block|..] == parts && Join(parts, nl) == content
  {
    var nl := NewlineOf(content);
    var parts := Split(content, nl);
    var n: nat :| block == Block(Spaces(n));
    BlockHasNoNewline(n, nl);
    assert block != [];
    hide Find, Split, Join, Block, Spaces, NoneContain, NewlineOf;
    SplitPieces(content, nl);
    JoinSplit(content, nl);
    SplicedContainsNone(parts, at, block, nl);
    SplicedKeepsBoth(parts, at, block);
    SplitJoin(Spliced(parts, at, block), nl);
  }

  /** The first verification check can never fail. */
  lemma NeverTouchesOtherLines(facts: Facts, content: string, kind: string, key: string, accepts: string -> bool)
    ensures Preview(facts, content, kind, key, accepts) != Declined(TouchesOtherLines)
  {
    if PlanFor(content).Insertion? {
      PlanIsBlock(content);
      EditIsPureInsertion(content, PlanFor(content).at, PlanFor(content).lines);
    }
    hide PlanFor, Edit, Spliced, HasTopLevelKey, NewlineOf;
  }

  // ---------------------------------------------------------------- where the block lands

  /** `jobs` is the one jobs line, and the block goes above exactly the comments attached to it. */
  ghost predicate SitsOn(parts: seq<string>, at: nat, jobs: nat) {
    && at <= jobs < |parts| && IsJobsLine(parts[jobs])
    && (forall k | 0 <= k < |parts| && IsJobsLine(parts[k]) :: k == jobs)
    && (forall k | at <= k < jobs :: IsAttachedComment(parts[k]))
    && (at > 0 ==> !IsAttachedComment(parts[at - 1]))
  }

  lemma PlanSitsOnJobs(content: string) returns (jobs: nat)
    requires PlanFor(content).Insertion?
    ensures SitsOn(SplitLines(content), PlanFor(content).at, jobs)
  {
    var lines := SplitLines(content);
    JobsLinesAreThose(lines);
    jobs := JobsLines(lines)[0];
    assert jobs in JobsLines(lines);
    hide SplitLines, IsJobsLine, IsAttachedComment, ChildIndent, JobsLines, CommentTop;
    forall k | 0 <= k < |lines| && IsJobsLine(lines[k]) ensures k == jobs {
      assert k in JobsLines(lines);
    }
  }

  lemma SitsOnTransfers(parts: seq<string>, at: nat, jobs: nat)
    requires |parts| > 0 && SitsOn(DropFinalEmpty(parts), at, jobs)
    ensures SitsOn(parts, at, jobs)
  {
    EmptyIsNotJobs();
    hide IsJobsLine, IsAttachedComment;
    var lines := DropFinalEmpty(parts);
    assert forall k | 0 <= k < |lines| :: lines[k] == parts[k];
  }

  /** With one kind of line break in the file, only attached comments separate the block from the one `jobs:`. */
  lemma BlockSitsOnJobs(content: string) returns (jobs: nat)
    requires PlanFor(content).Insertion? && AllUnbroken(Split(content, NewlineOf(content)))
    ensures SitsOn(Split(content, NewlineOf(content)), PlanFor(content).at, jobs)
    ensures Clamp(PlanFor(content).at, Split(content, NewlineOf(content))) == PlanFor(content).at
  {
    var nl := NewlineOf(content);
    jobs := PlanSitsOnJobs(content);
    hide PlanFor, SplitLines, Split, AllUnbroken;
    var parts := Split(content, nl);
    JoinSplit(content, nl);
    SplitLinesJoin(parts, nl);
    SitsOnTransfers(parts, PlanFor(content).at, jobs);
  }

  /** Text made of the first `k` pieces, each with its newline. */
  function Head(parts: seq<string>, k: nat, nl: string): string
    requires k <= |parts|
  {
    if k == 0 then "" else Join(parts[..k], nl) + nl
  }

  lemma HeadEndsLine(parts: seq<string>, k: nat, nl: string)
    requires k <= |parts| && IsNewline(nl)
    ensures EndsLine(Head(parts, k, nl))
  {
  }

  lemma HeadAndTail(parts: seq<string>, k: nat, nl: string)
    requires k < |parts|
    ensures Join(parts, nl) == Head(parts, k, nl) + Join(parts[k..], nl)
  {
    if k == 0 {
      assert parts[0..] == parts;
    } else {
      assert parts == parts[..k] + parts[k..];
      JoinConcat(parts[..k], parts[k..], nl);
      assert Head(parts, k, nl) + Join(parts[k..], nl) == Join(parts[..k], nl) + nl + Join(parts[k..], nl);
    }
  }

  /** All pieces but the last are followed by the newline, and fit before it. */
  lemma FrontPieces(content: string)
    ensures var nl := NewlineOf(content); var parts := Split(content, nl);
            forall k | 0 <= k < |parts| - 1 :: Fits(parts[k], nl)
  {
    var nl := NewlineOf(content);
    var parts := Split(content, nl);
    SplitPieces(content, nl);
    JoinSplit(content, nl);
    if nl == LF {
      FindNoCrlf(content);
      FrontPiecesFit(parts);
    } else {
      forall k | 0 <= k < |parts| - 1 ensures Fits(parts[k], nl) { FindNoCrlf(parts[k]); }
    }
  }

  lemma HeadLines(content: string, k: nat)
    requires k < |Split(content, NewlineOf(content))|
    ensures var nl := NewlineOf(content); var parts := Split(content, nl);
            |SplitLines(Head(parts, k, nl))| == k + Foreign(parts[..k])
  {
    var nl := NewlineOf(content);
    var parts := Split(content, nl);
    FrontPieces(content);
    if k == 0 {
      EmptyHasNoLines();
    } else {
      assert AllFit(parts[..k], nl);
      PiecesLines(parts[..k], nl);
    }
  }

  /** The block's own text, closed by a newline, is its lines. */
  lemma BlockLines(n: nat, nl: string)
    requires IsNewline(nl)
    ensures SplitLines(Join(Block(Spaces(n)), nl) + nl) == Block(Spaces(n)) && EndsLine(Join(Block(Spaces(n)), nl) + nl)
  {
    var block := Block(Spaces(n));
    BlockUnbroken(n);
    BlockCloses(block, nl);
    hide Block, Spaces, SplitLines, Unbroken;
    SplitLinesJoin(block + [""], nl);
  }

  lemma BlockCloses(block: seq<string>, nl: string)
    requires block != [] && AllUnbroken(block)
    ensures Join(block + [""], nl) == Join(block, nl) + nl && AllUnbroken(block + [""])
    ensures DropFinalEmpty(block + [""]) == block
  {
    JoinConcat(block, [""], nl);
    EmptyIsUnbroken();
    hide Unbroken;
  }

  lemma EmptyIsUnbroken()
    ensures Unbroken("")
  {
  }

  lemma IndentedUnbroken(n: nat, text: string)
    requires Unbroken(text)
    ensures Unbroken(Spaces(n) + text)
  {
  }

  lemma BlockUnbroken(n: nat)
    ensures |Block(Spaces(n))| > 0 && AllUnbroken(Block(Spaces(n)))
  {
    TextsUnbroken();
    IndentedUnbroken(n, GroupText());
    IndentedUnbroken(n, CancelText());
    hide Unbroken, Spaces, GroupText, CancelText;
  }

  lemma UnbrokenConcat(a: string, b: string)
    requires Unbroken(a) && Unbroken(b)
    ensures Unbroken(a + b)
  {
  }

  lemma GroupUnbroken()
    ensures Unbroken(GroupText())
  {
    var a, b, c := "group: ", "${{ github.workflow }}", "${{ github.ref }}";
    assert Unbroken(a) && Unbroken(b) && Unbroken("-") && Unbroken(c);
    hide Unbroken;
    UnbrokenConcat(a, b);
    UnbrokenConcat(a + b, "-");
    UnbrokenConcat(a + b + "-", c);
  }

  lemma TextsUnbroken()
    ensures Unbroken("concurrency:") && Unbroken(GroupText()) && Unbroken(CancelText()) && Unbroken("")
  {
    GroupUnbroken();
    hide GroupText;
  }

  lemma JoinSpliced(parts: seq<string>, at: nat, block: seq<string>, nl: string)
    requires at < |parts| && block != []
    ensures Join(Spliced(parts, at, block), nl) ==
            Head(parts, at, nl) + ((Join(block, nl) + nl) + Join(parts[at..], nl))
  {
    var tail := block + parts[at..];
    JoinConcat(block, parts[at..], nl);
    assert Join(tail, nl) == (Join(block, nl) + nl) + Join(parts[at..], nl);
    if at == 0 {
      assert Spliced(parts, at, block) == tail;
    } else {
      assert Spliced(parts, at, block) == parts[..at] + tail;
      JoinConcat(parts[..at], tail, nl);
      hide Join;
      assert Head(parts, at, nl) + Join(tail, nl) == Join(parts[..at], nl) + nl + Join(tail, nl);
    }
  }

  lemma EditSplits(content: string, at: nat, block: seq<string>)
    requires at < |Split(content, NewlineOf(content))| && block != []
    ensures var nl := NewlineOf(content); var parts := Split(content, nl);
            && content == Head(parts, at, nl) + Join(parts[at..], nl)
            && Edit(content, at, block) == Head(parts, at, nl) + ((Join(block, nl) + nl) + Join(parts[at..], nl))
  {
    var nl := NewlineOf(content);
    var parts := Split(content, nl);
    JoinSplit(content, nl);
    assert Spliced(parts, at, block) != [];
    hide Split, NewlineOf, Join, Head, Spliced;
    HeadAndTail(parts, at, nl);
    JoinSpliced(parts, at, block, nl);
  }

  /** Text put between two lines becomes lines between them. */
  lemma LinesBetween(head: string, middle: string, tail: string)
    requires EndsLine(head) && EndsLine(middle)
    ensures var lines, k := SplitLines(head + tail), |SplitLines(head)|;
            k <= |lines| && SplitLines(head + (middle + tail)) == lines[..k] + SplitLines(middle) + lines[k..]
  {
    SplitLinesConcat(head, tail);
    SplitLinesConcat(middle, tail);
    SplitLinesConcat(head, middle + tail);
    hide *;
    var a, m, b := SplitLines(head), SplitLines(middle), SplitLines(tail);
    assert (a + b)[..|a|] == a && (a + b)[|a|..] == b;
    assert a + (m + b) == a + m + b;
  }

  /** In the edited file the block stands right below the first `above` lines; no other line changes. */
  ghost predicate StandsBelow(content: string, at: nat, block: seq<string>, above: nat) {
    var lines := SplitLines(content);
    above <= |lines| && SplitLines(Edit(content, at, block)) == lines[..above] + block + lines[above..]
  }

  /** The line breaks inside the pieces above the block, which the insertion point does not count. */
  function Hidden(content: string, at: nat): nat {
    var parts := Split(content, NewlineOf(content));
    Foreign(parts[..Clamp(at, parts)])
  }

  lemma BlockStandsBelow(content: string, at: nat, n: nat)
    requires at < |Split(content, NewlineOf(content))|
    ensures StandsBelow(content, at, Block(Spaces(n)), at + Hidden(content, at))
  {
    var nl := NewlineOf(content);
    var parts := Split(content, nl);
    var block := Block(Spaces(n));
    BlockUnbroken(n);
    BlockLines(n, nl);
    EditSplits(content, at, block);
    HeadLines(content, at);
    HeadEndsLine(parts, at, nl);
    LinesBetween(Head(parts, at, nl), Join(block, nl) + nl, Join(parts[at..], nl));
    assert |SplitLines(Head(parts, at, nl))| == at + Hidden(content, at);
    hide SplitLines, Edit, Split, Join, Head, Block, Spaces, NewlineOf, Foreign, Hidden;
  }

  lemma ForeignSplits(parts: seq<string>)
    requires |parts| > 0
    ensures Foreign(parts) == Foreign(parts[..|parts| - 1]) + Breaks(parts[|parts| - 1])
  {
    var last := [parts[|parts| - 1]];
    assert parts == parts[..|parts| - 1] + last && last[1..] == [];
    ForeignConcat(parts[..|parts| - 1], last);
    assert Foreign(last) == Breaks(last[0]);
  }

  lemma LinesWithinPieces(content: string)
    ensures var parts := Split(content, NewlineOf(content)); |SplitLines(content)| <= |parts| + Foreign(parts)
  {
    var nl := NewlineOf(content);
    var parts := Split(content, nl);
    var k := |parts| - 1;
    JoinSplit(content, nl);
    HeadAndTail(parts, k, nl);
    HeadLines(content, k);
    HeadEndsLine(parts, k, nl);
    assert parts[k..] == [parts[k]] && Join([parts[k]], nl) == parts[k];
    ForeignSplits(parts);
    LinesAtMost(parts[k]);
    SplitLinesConcat(Head(parts, k, nl), parts[k]);
    hide *;
  }

  /** The `jobs:` line moved down by the whole block. */
  ghost predicate JobsMovedDown(content: string, at: nat, block: seq<string>, jobs: nat) {
    var edited := SplitLines(Edit(content, at, block));
    jobs + |block| < |edited| && IsJobsLine(edited[jobs + |block|])
  }

  lemma JobsLineBegins(line: string)
    requires IsJobsLine(line)
    ensures line != "" && line[0] == 'j'
  {
    assert line[..5][0] == 'j';
  }

  lemma BlockHasNoJobsLine(n: nat)
    ensures forall k | 0 <= k < |Block(Spaces(n))| :: !IsJobsLine(Block(Spaces(n))[k])
  {
    var block := Block(Spaces(n));
    forall k | 0 <= k < |block| ensures !IsJobsLine(block[k]) {
      if IsJobsLine(block[k]) { JobsLineBegins(block[k]); }
    }
  }

  /** Lines put in below the first `above` move the one jobs line down exactly when it is not among these. */
  lemma LinesMoveJobs(lines: seq<string>, at: nat, jobs: nat, above: nat, block: seq<string>)
    requires SitsOn(lines, at, jobs) && above <= |lines| && |block| > 0
    requires forall k | 0 <= k < |block| :: !IsJobsLine(block[k])
    ensures var edited := lines[..above] + block + lines[above..];
            jobs + |block| < |edited| && IsJobsLine(edited[jobs + |block|]) <==> above <= jobs
  {
    hide IsJobsLine, IsAttachedComment;
    var edited := lines[..above] + block + lines[above..];
    var i := jobs + |block|;
    if above <= jobs {
      assert edited[i] == lines[jobs];
    } else if i < above {
      assert edited[i] == lines[i];
    } else if i < |edited| {
      assert edited[i] == block[i - above];
    }
  }

  lemma AppendedLines(content: string, nl: string, n: nat)
    requires IsNewline(nl)
    ensures var lines, block := SplitLines(content), Block(Spaces(n));
            var edited := SplitLines(content + nl + Join(block, nl));
            |edited| >= |lines| && edited[..|lines|] == lines
            && forall k | |lines| <= k < |edited| :: edited[k] == "" || edited[k] in block
  {
    var block := Block(Spaces(n));
    BlockUnbroken(n);
    hide Block, Spaces, SplitLines;
    SplitLinesConcat(content + nl, Join(block, nl));
    SplitLinesJoin(block, nl);
    ClosingNewline(content, nl);
  }

  lemma AppendedBlockMovesNothing(content: string, at: nat, n: nat, jobs: nat)
    requires at >= |Split(content, NewlineOf(content))| && SitsOn(SplitLines(content), at, jobs)
    ensures !JobsMovedDown(content, at, Block(Spaces(n)), jobs)
  {
    var lines, block, nl := SplitLines(content), Block(Spaces(n)), NewlineOf(content);
    BlockUnbroken(n);
    BlockHasNoJobsLine(n);
    EmptyIsNotJobs();
    AppendsAtEnd(content, at, block);
    AppendedLines(content, nl, n);
    hide SplitLines, Split, Join, Edit, Block, Spaces, NewlineOf, IsJobsLine, IsAttachedComment;
    var edited := SplitLines(Edit(content, at, block));
    var i := jobs + |block|;
    if i < |lines| {
      assert edited[i] == edited[..|lines|][i];
    } else if i < |edited| {
      assert edited[i] == "" || edited[i] in block;
    }
  }

  lemma InsertedBlockMoves(content: string, at: nat, n: nat, jobs: nat)
    requires at < |Split(content, NewlineOf(content))| && SitsOn(SplitLines(content), at, jobs)
    ensures JobsMovedDown(content, at, Block(Spaces(n)), jobs) <==> Hidden(content, at) <= jobs - at
  {
    BlockUnbroken(n);
    BlockHasNoJobsLine(n);
    BlockStandsBelow(content, at, n);
    hide SplitLines, Split, Edit, Block, Spaces, NewlineOf, Hidden, SitsOn;
    LinesMoveJobs(SplitLines(content), at, jobs, at + Hidden(content, at), Block(Spaces(n)));
  }

  /** All that can be said of a block put in at `at` when `jobs` is the one jobs line below. */
  ghost predicate Lands(content: string, at: nat, block: seq<string>, jobs: nat) {
    var nl := NewlineOf(content);
    var n := |Split(content, nl)|;
    && SitsOn(SplitLines(content), at, jobs)
    && (at < n ==> StandsBelow(content, at, block, at + Hidden(content, at)))
    && (at >= n ==> block != [] && Edit(content, at, block) == content + nl + Join(block, nl))
    && (JobsMovedDown(content, at, block, jobs) <==> Hidden(content, at) <= jobs - at)
    && (Hidden(content, at) <= jobs - at ==> at < n)
  }

  lemma LandsInside(content: string, at: nat, n: nat, jobs: nat)
    requires at < |Split(content, NewlineOf(content))| && SitsOn(SplitLines(content), at, jobs)
    ensures Lands(content, at, Block(Spaces(n)), jobs)
  {
    BlockStandsBelow(content, at, n);
    InsertedBlockMoves(content, at, n, jobs);
    hide JobsMovedDown, StandsBelow, Hidden, Split, Join, Edit, SplitLines, Block, Spaces, SitsOn;
  }

  lemma LandsAtEnd(content: string, at: nat, n: nat, jobs: nat)
    requires at >= |Split(content, NewlineOf(content))| && SitsOn(SplitLines(content), at, jobs)
    ensures Lands(content, at, Block(Spaces(n)), jobs)
  {
    BlockUnbroken(n);
    AppendsAtEnd(content, at, Block(Spaces(n)));
    AllHidden(content, at);
    AppendedBlockMovesNothing(content, at, n, jobs);
    assert jobs < |SplitLines(content)|;
    hide JobsMovedDown, StandsBelow, Hidden, Split, Join, Edit, SplitLines, Block, Spaces, SitsOn;
  }

  /** Where the block lands, for every file: below `at` lines plus the breaks hidden in the first `at` pieces. So the
      `jobs:` line, and at most comments attached to it, follows the block exactly when these breaks are no more than
      these comments; else it stays where it was, above the block. */
  lemma BlockLandsExactly(content: string) returns (jobs: nat)
    requires PlanFor(content).Insertion?
    ensures Lands(content, PlanFor(content).at, PlanFor(content).lines, jobs)
  {
    jobs := PlanSitsOnJobs(content);
    PlanIsBlock(content);
    var at, block := PlanFor(content).at, PlanFor(content).lines;
    hide PlanFor, SitsOn, Lands;
    var n: nat :| block == Block(Spaces(n));
    if at < |Split(content, NewlineOf(content))| {
      LandsInside(content, at, n, jobs);
    } else {
      LandsAtEnd(content, at, n, jobs);
    }
  }

  lemma AllHidden(content: string, at: nat)
    requires at >= |Split(content, NewlineOf(content))|
    ensures |SplitLines(content)| <= at + Hidden(content, at)
  {
    var parts := Split(content, NewlineOf(content));
    LinesWithinPieces(content);
    assert parts[..Clamp(at, parts)] == parts;
  }

  lemma AppendsAtEnd(content: string, at: nat, block: seq<string>)
    requires at >= |Split(content, NewlineOf(content))| && block != []
    ensures var nl := NewlineOf(content); Edit(content, at, block) == content + nl + Join(block, nl)
  {
    var nl := NewlineOf(content);
    var parts := Split(content, nl);
    JoinSplit(content, nl);
    assert Spliced(parts, at, block) == parts + block by { assert parts[..|parts|] == parts && parts[|parts|..] == []; }
    JoinConcat(parts, block, nl);
  }

  /** When the `jobs:` line is a piece of its own, counting the breaks hidden above that piece decides as well. */
  lemma OwnPieceExactly(content: string, b: nat) returns (jobs: nat)
    requires PlanFor(content).Insertion? && b < |Split(content, NewlineOf(content))|
    requires var piece := Split(content, NewlineOf(content))[b]; IsJobsLine(piece) && Unbroken(piece)
    ensures var at := PlanFor(content).at;
            && SitsOn(SplitLines(content), at, jobs) && jobs == b + Hidden(content, b)
            && (at <= b <==> Hidden(content, b) <= jobs - at)
  {
    jobs := PlanSitsOnJobs(content);
    PieceIsLine(content, b);
  }

  lemma FirstPieceIsFirstLine(parts: seq<string>, nl: string)
    requires IsNewline(nl) && parts != [] && parts[0] != "" && Unbroken(parts[0])
    ensures SplitLines(Join(parts, nl)) != [] && SplitLines(Join(parts, nl))[0] == parts[0]
  {
    if |parts| == 1 {
      SingleLine(parts[0]);
    } else {
      assert IsOneBreak(nl, Join(parts[1..], nl));
      hide SplitLines, Unbroken, IsOneBreak;
      FirstLine(parts[0], nl, Join(parts[1..], nl));
    }
  }

  lemma PieceIsLine(content: string, b: nat)
    requires b < |Split(content, NewlineOf(content))|
    requires Split(content, NewlineOf(content))[b] != "" && Unbroken(Split(content, NewlineOf(content))[b])
    ensures var parts, lines := Split(content, NewlineOf(content)), SplitLines(content);
            b + Foreign(parts[..b]) < |lines| && lines[b + Foreign(parts[..b])] == parts[b]
  {
    var nl := NewlineOf(content);
    var parts := Split(content, nl);
    JoinSplit(content, nl);
    HeadAndTail(parts, b, nl);
    HeadLines(content, b);
    HeadEndsLine(parts, b, nl);
    FirstPieceIsFirstLine(parts[b..], nl);
    SplitLinesConcat(Head(parts, b, nl), Join(parts[b..], nl));
    hide *;
  }

  lemma EmptyIsNotJobs()
    ensures !IsJobsLine("")
  {
  }

  lemma SingleLine(line: string)
    requires line != "" && Unbroken(line)
    ensures SplitLines(line) == [line]
  {
    LineLengthIs(line, |line|);
  }

  // ---------------------------------------------------------------- a workflow whose block lands below jobs

  /** Four comment lines between carriage returns, then the ordinary lines of a workflow. */
  function SkewedComment(): string { "# a\r# b\r# c\r# d" }

  function SkewedTail(): seq<string> { ["on: push", "jobs:", "  t:", "    runs-on: u", ""] }

  function SkewedPieces(): seq<string> { [SkewedComment()] + SkewedTail() }

  function SkewedFile(): string { Join(SkewedPieces(), LF) }

  function SkewedCommented(): seq<string> { ["# a", "# b", "# c", "# d"] }

  function SkewedPlain(): seq<string> { ["on: push", "jobs:", "  t:", "    runs-on: u"] }

  function SkewedLines(): seq<string> { ["# a", "# b", "# c", "# d", "on: push", "jobs:", "  t:", "    runs-on: u"] }

  lemma SkewedFileParts()
    ensures SkewedFile() == SkewedComment() + LF + Join(SkewedTail(), LF)
  {
    assert SkewedPieces()[1..] == SkewedTail();
    hide SkewedComment, SkewedTail;
  }

  lemma SkewedCommentLines()
    ensures SplitLines(SkewedComment() + LF) == SkewedCommented()
  {
    var a, b, c, d := "# a", "# b", "# c", "# d";
    SkewedCommentParts();
    SkewedCommentBreaks();
    hide SplitLines, Unbroken, IsOneBreak, SkewedComment;
    EmptyHasNoLines();
    FirstLine(d, LF, "");
    FirstLine(c, "\r", d + LF + "");
    FirstLine(b, "\r", c + "\r" + (d + LF + ""));
    FirstLine(a, "\r", b + "\r" + (c + "\r" + (d + LF + "")));
  }

  lemma SkewedCommentParts()
    ensures SkewedComment() + LF == "# a" + "\r" + ("# b" + "\r" + ("# c" + "\r" + ("# d" + LF + "")))
  {
    assert SkewedComment() == "# a\r" + "# b\r" + "# c\r" + "# d";
  }

  lemma SkewedCommentBreaks()
    ensures Unbroken("# a") && Unbroken("# b") && Unbroken("# c") && Unbroken("# d") && IsOneBreak(LF, "")
    ensures forall rest: string | rest != "" && rest[0] == '#' :: IsOneBreak("\r", rest)
  {
  }

  lemma SkewedTailUnbroken()
    ensures AllUnbroken(SkewedTail())
  {
    assert Unbroken("on: push") && Unbroken("jobs:") && Unbroken("  t:") && Unbroken("    runs-on: u") && Unbroken("");
    hide Unbroken;
  }

  lemma SkewedTailLines()
    ensures SplitLines(Join(SkewedTail(), LF)) == SkewedPlain()
  {
    SkewedTailUnbroken();
    hide AllUnbroken;
    SplitLinesJoin(SkewedTail(), LF);
  }

  lemma EndingsMeet(a: string, b: string)
    requires EndsLine(a) && EndsLine(b) && b != ""
    ensures SplitLines(a + b) == SplitLines(a) + SplitLines(b) && EndsLine(a + b)
  {
    SplitLinesConcat(a, b);
  }

  lemma SkewedLinesMeet()
    ensures SkewedCommented() + SkewedPlain() == SkewedLines()
  {
  }

  lemma SkewedCommentEnds()
    ensures EndsLine(SkewedComment() + LF)
  {
    hide SkewedComment;
  }

  lemma SkewedFileLines()
    ensures SplitLines(SkewedFile()) == SkewedLines() && EndsLine(SkewedFile())
  {
    SkewedFileParts();
    SkewedCommentLines();
    SkewedTailLines();
    SkewedTailEnds();
    SkewedCommentEnds();
    SkewedLinesMeet();
    var a, b := SkewedComment() + LF, Join(SkewedTail(), LF);
    hide *;
    EndingsMeet(a, b);
  }

  lemma SkewedTailEnds()
    ensures Join(SkewedTail(), LF) != "" && EndsLine(Join(SkewedTail(), LF)) && '\r' !in Join(SkewedTail(), LF)
  {
    JoinHasNo(SkewedTail(), '\r');
    var front := SkewedTail()[..4];
    assert SkewedTail() == front + [""];
    hide SkewedTail;
    JoinConcat(front, [""], LF);
  }

  lemma {:induction false} JoinHasNo(parts: seq<string>, c: char)
    requires parts != [] && c != '\n' && forall k | 0 <= k < |parts| :: c !in parts[k]
    ensures c !in Join(parts, LF)
    decreases |parts|
  {
    if |parts| > 1 { JoinHasNo(parts[1..], c); }
  }

  lemma {:induction false} NoCrlfNotFound(s: string)
    requires NoCrlf(s)
    ensures Find(s, CRLF) == None
    decreases |s|
  {
    if |s| >= 2 {
      var t := s[1..];
      assert forall k | 0 <= k < |t| :: t[k] == s[k + 1];
      NoCrlfNotFound(t);
      assert s[..2][0] == s[0] && s[..2][1] == s[1];
    }
  }

  lemma FeedsAfterReturns(a: string, b: string)
    requires a != "" && a[|a| - 1] != '\r' && '\n' !in a && '\r' !in b
    ensures NoCrlf(a + b)
  {
    var s := a + b;
    forall k | 0 <= k < |s| - 1 ensures s[k] == '\r' ==> s[k + 1] != '\n' {
      if k + 1 < |a| {
        assert s[k + 1] == a[k + 1];
      } else {
        assert s[k] == if k < |a| then a[k] else b[k - |a|];
      }
    }
  }

  lemma SkewedCommentChars()
    ensures '\n' !in SkewedComment() && SkewedComment() != "" && SkewedComment()[|SkewedComment()| - 1] == 'd'
  {
  }

  lemma SkewedNewline()
    ensures NewlineOf(SkewedFile()) == LF
  {
    var a, b := SkewedComment(), LF + Join(SkewedTail(), LF);
    SkewedFileParts();
    SkewedCommentChars();
    SkewedTailEnds();
    hide SkewedComment, SkewedTail, SkewedFile, Join;
    FeedsAfterReturns(a, b);
    assert a + b == SkewedFile();
    NoCrlfNotFound(SkewedFile());
  }

  lemma SkewedPiecesFeedless()
    ensures forall k | 0 <= k < |SkewedPieces()| :: '\n' !in SkewedPieces()[k]
  {
    SkewedCommentChars();
    hide SkewedComment;
  }

  lemma SkewedFilePieces()
    ensures Split(SkewedFile(), NewlineOf(SkewedFile())) == SkewedPieces()
  {
    SkewedNewline();
    SkewedCommentChars();
    var parts := SkewedPieces();
    SkewedPiecesFeedless();
    forall k | 0 <= k < |parts| ensures Find(parts[k], LF) == None { NoLineFeedNoNewline(parts[k], LF); }
    hide Find, Split, SkewedPieces, NewlineOf;
    SplitJoin(parts, LF);
  }

  lemma NotJobs(line: string)
    requires line == "" || line[0] != 'j'
    ensures !IsJobsLine(line)
  {
    if IsJobsLine(line) { JobsLineBegins(line); }
  }

  lemma OneJobsLine(lines: seq<string>, jobs: nat)
    requires jobs < |lines| && forall k | 0 <= k < |lines| :: IsJobsLine(lines[k]) <==> k == jobs
    ensures JobsLines(lines) == [jobs]
  {
    JobsLinesAreThose(lines);
    hide IsJobsLine;
    var found := JobsLines(lines);
    assert jobs in found;
    assert forall k | 0 <= k < |found| :: found[k] in found;
    assert found[0] == jobs && found[|found| - 1] == jobs;
  }

  lemma SkewedJobs()
    ensures JobsLines(SkewedLines()) == [5] && IsJobsLine(SkewedLines()[5])
    ensures CommentTop(SkewedLines(), 5) == 5
  {
    var lines := SkewedLines();
    assert "jobs:"[5..] == "";
    forall k | 0 <= k < |lines| ensures IsJobsLine(lines[k]) <==> k == 5 {
      if k != 5 { NotJobs(lines[k]); }
    }
    assert !IsAttachedComment("on: push");
    hide IsJobsLine, IsAttachedComment;
    OneJobsLine(lines, 5);
  }

  lemma SkewedIndent()
    ensures ChildIndent(SkewedLines()[6..]) == Spaces(2)
  {
    var below := SkewedLines()[6..];
    assert below[0] == "  t:";
    var t := "  t:";
    assert t[1..] == " t:" && " t:"[1..] == "t:" && LStrip(t) == "t:";
    assert RStrip("t:") == "t:" && Strip(t) == "t:";
    assert LeadingSpaces(t) == 2;
  }

  lemma SkewedPlan()
    ensures PlanFor(SkewedFile()) == Insertion(5, Block(Spaces(2)))
  {
    SkewedFileLines();
    SkewedJobs();
    SkewedIndent();
    hide SplitLines, JobsLines, CommentTop, ChildIndent, SkewedLines, SkewedFile, Block, Spaces;
  }

  lemma KeyLineBegins(line: string, key: string)
    requires DeclaresKey(line, key) && key != ""
    ensures line != "" && line[0] == key[0]
  {
    assert line[..|key|][0] == line[0];
  }

  lemma SkewedHasNoConcurrency()
    ensures !HasTopLevelKey(SkewedFile(), "concurrency")
  {
    SkewedFileLines();
    hide SplitLines, SkewedFile;
    var lines := SkewedLines();
    forall k | 0 <= k < |lines| ensures !DeclaresKey(lines[k], "concurrency") {
      if DeclaresKey(lines[k], "concurrency") { KeyLineBegins(lines[k], "concurrency"); }
    }
  }

  lemma SkewedEdit()
    ensures var file, block := SkewedFile(), Block(Spaces(2));
            Edit(file, 5, block) == file + (Join(block, LF) + LF)
  {
    var file, block, parts := SkewedFile(), Block(Spaces(2)), SkewedPieces();
    SkewedFilePieces();
    SkewedNewline();
    assert block != [] && |parts| == 6 && parts[5..] == [""] && Join([""], LF) == "";
    EditSplits(file, 5, block);
    hide *;
    var head, text := Head(parts, 5, LF), Join(block, LF) + LF;
    assert head + "" == head && text + "" == text;
  }

  /** The condition matters: this workflow is edited, and the block stands at its end, below all of `jobs:`. */
  lemma BlockCanLandBelowJobs(path: string, accepts: string -> bool)
    ensures var file, block := SkewedFile(), Block(Spaces(2)); var after := file + (Join(block, LF) + LF);
            && Preview(Facts(path, true, false, false), file, APPLIES_TO, APPLIES_TO + ":" + path, accepts) ==
                 (if accepts(after) then Proposed(after) else Declined(RejectedByParser))
            && SplitLines(file) == SkewedLines() && IsJobsLine(SkewedLines()[5])
            && SplitLines(after) == SkewedLines() + block
  {
    var file, block := SkewedFile(), Block(Spaces(2));
    SkewedPlan();
    SkewedHasNoConcurrency();
    SkewedEdit();
    SkewedFileLines();
    SkewedJobs();
    BlockLines(2, LF);
    assert IsBlock(block);
    EditIsPureInsertion(file, 5, block);
    hide SkewedFile, SkewedLines, PlanFor, Edit, Split, Spliced, Join, SplitLines, Block, Spaces, IsJobsLine,
         HasTopLevelKey, NewlineOf;
    SplitLinesConcat(file, Join(block, LF) + LF);
  }

  // ---------------------------------------------------------------- the fix is not proposed twice

  lemma KeyLineDeclares()
    ensures DeclaresKey("concurrency:", "concurrency") && Unbroken("concurrency:")
  {
    assert "concurrency:"[|"concurrency"|..] == ":";
  }

  lemma InsertedKeyIsALine(head: string, nl: string, rest: string)
    requires IsNewline(nl) && EndsLine(head)
    ensures HasTopLevelKey(head + ("concurrency:" + nl + rest), "concurrency")
  {
    var tail := "concurrency:" + nl + rest;
    assert IsOneBreak(nl, rest);
    KeyLineDeclares();
    hide SplitLines, DeclaresKey, IsOneBreak, EndsLine, Unbroken;
    SplitLinesConcat(head, tail);
    FirstLine("concurrency:", nl, rest);
    var lines := SplitLines(head + tail);
    assert DeclaresKey(lines[|SplitLines(head)|], "concurrency");
  }

  lemma EditDeclaresConcurrency(content: string, at: nat, block: seq<string>)
    requires IsBlock(block)
    ensures HasTopLevelKey(Edit(content, at, block), "concurrency")
  {
    var nl := NewlineOf(content);
    var parts := Split(content, nl);
    var k := Clamp(at, parts);
    var tail := block + parts[k..];
    assert tail[0] == "concurrency:" && |tail| > 1;
    var rest := Join(tail[1..], nl);
    assert Join(tail, nl) == "concurrency:" + nl + rest;
    hide Split, Find, HasTopLevelKey, IsBlock;
    if k == 0 {
      assert Spliced(parts, at, block) == tail;
      InsertedKeyIsALine("", nl, rest);
      assert "" + Join(tail, nl) == Join(tail, nl);
    } else {
      assert Spliced(parts, at, block) == parts[..k] + tail;
      JoinConcat(parts[..k], tail, nl);
      InsertedKeyIsALine(Join(parts[..k], nl) + nl, nl, rest);
    }
  }

  /** Whatever is asked about an accepted result, the answer is to decline. */
  lemma SecondPreviewDeclines(facts: Facts, content: string, kind: string, key: string, accepts: string -> bool,
                              facts': Facts, kind': string, key': string, accepts': string -> bool)
    requires Preview(facts, content, kind, key, accepts).Proposed?
    ensures Preview(facts', Preview(facts, content, kind, key, accepts).after, kind', key', accepts').Declined?
  {
    PlanIsBlock(content);
    EditDeclaresConcurrency(content, PlanFor(content).at, PlanFor(content).lines);
    hide PlanFor, Edit, Spliced, HasTopLevelKey, NewlineOf;
  }
}
