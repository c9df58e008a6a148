/** Step durations indexed by display name and by config job, in one memoised pass
    (src/cadence/audit.py:241-279, src/cadence/workflow.py:71-194). */
module StepIndex {
  import opened Common
  import opened Text
  import opened Lines

  // ---------------------------------------------------------------- config jobs and their runtime names

  /** A `name:` template cut at its expressions. */
  datatype Token = Literal(s: string) | Expression

  datatype Job = Job(key: string, name: seq<Token>)
  {
    /** What survives of the template at runtime. */
    function Static(): string { Strip(LiteralText(name)) }

    /** The name is nothing but expressions. */
    predicate HasDynamicName() { !IsEmpty(name) && Static() == "" }

    function RuntimeNames(): set<string> { if Static() != "" then {key, Static()} else {key} }

    function RuntimeNamesStripped(): set<string> { set n | n in RuntimeNames() :: StripMatrixSuffix(n) }
  }

  predicate IsEmpty(tokens: seq<Token>) { forall i | 0 <= i < |tokens| :: tokens[i] == Literal("") }

  function LiteralText(tokens: seq<Token>): string {
    if tokens == [] then ""
    else (if tokens[0].Literal? then tokens[0].s else "") + LiteralText(tokens[1..])
  }

  /** Where a trailing `(...)` without inner parentheses opens, scanning back from its closing one. */
  function OpeningParen(s: string): (at: Option<nat>)
    ensures at.Some? ==> at.value < |s|
  {
    if s == "" || s[|s| - 1] == ')' then None
    else if s[|s| - 1] == '(' then Some(|s| - 1)
    else OpeningParen(s[..|s| - 1])
  }

  /** `test (ubuntu-latest)` -> `test`. */
  function StripMatrixSuffix(name: string): string {
    var t := RStrip(name);
    if t == "" || t[|t| - 1] != ')' then name
    else
      var at := OpeningParen(t[..|t| - 1]);
      if at.None? || at.value == 0 then name else Strip(t[..at.value])
  }

  datatype Workflow = Workflow(path: string, parses: bool, jobs: seq<Job>)

  predicate Given(s: Option<string>) { s.Some? && s.value != "" }

  function FirstNamed(jobs: seq<Job>, name: string): Option<Job> {
    if jobs == [] then None
    else if name in jobs[0].RuntimeNames() then Some(jobs[0]) else FirstNamed(jobs[1..], name)
  }

  function Claimants(jobs: seq<Job>, base: string): seq<Job> {
    if jobs == [] then []
    else (if base in jobs[0].RuntimeNamesStripped() then [jobs[0]] else []) + Claimants(jobs[1..], base)
  }

  function FirstCaller(jobs: seq<Job>, caller: string): Option<Job> {
    if jobs == [] then None
    else if caller in jobs[0].RuntimeNames() || caller in jobs[0].RuntimeNamesStripped() then Some(jobs[0])
    else FirstCaller(jobs[1..], caller)
  }

  function Dynamics(jobs: seq<Job>): seq<Job> {
    if jobs == [] then [] else (if jobs[0].HasDynamicName() then [jobs[0]] else []) + Dynamics(jobs[1..])
  }

  /** `<caller> / <inner>`, resolved to the calling job. */
  function ByCaller(jobs: seq<Job>, candidate: Option<string>): Option<Job> {
    if !Given(candidate) || Find(candidate.value, " / ").None? then None
    else FirstCaller(jobs, Strip(candidate.value[..Find(candidate.value, " / ").value]))
  }

  /** Verbatim name, then an unambiguous stripped name, then a reusable-workflow caller, then elimination. */
  function JobForRuntimeName(jobs: seq<Job>, name: Option<string>, base: Option<string>): Option<Job> {
    var exact := if Given(name) then FirstNamed(jobs, name.value) else None;
    var claimants := if Given(base) then Claimants(jobs, base.value) else [];
    if exact.Some? then exact
    else if |claimants| == 1 then Some(claimants[0])
    else if ByCaller(jobs, name).Some? then ByCaller(jobs, name)
    else if ByCaller(jobs, base).Some? then ByCaller(jobs, base)
    else if |Dynamics(jobs)| == 1 then Some(Dynamics(jobs)[0])
    else None
  }

  ghost predicate UniqueNames(jobs: seq<Job>) {
    forall i, j | 0 <= i < j < |jobs| :: jobs[i].RuntimeNames() !! jobs[j].RuntimeNames()
  }

  lemma {:induction false} FirstNamedFinds(jobs: seq<Job>, name: string, i: nat)
    requires UniqueNames(jobs) && i < |jobs| && name in jobs[i].RuntimeNames()
    ensures FirstNamed(jobs, name) == Some(jobs[i])
    decreases |jobs|
  {
    if i > 0 {
      assert name !in jobs[0].RuntimeNames();
      FirstNamedFinds(jobs[1..], name, i - 1);
    }
  }

  /** A verbatim match is found under any order of the jobs, whatever their stripped names collide with. */
  lemma ExactNameWins(jobs: seq<Job>, name: string, base: Option<string>, i: nat)
    requires UniqueNames(jobs) && i < |jobs| && name != "" && name in jobs[i].RuntimeNames()
    ensures JobForRuntimeName(jobs, Some(name), base) == Some(jobs[i])
  {
    FirstNamedFinds(jobs, name, i);
  }

  lemma {:induction false} TiesAreCounted(jobs: seq<Job>, base: string, i: nat, j: nat)
    requires i < j < |jobs|
    requires base in jobs[i].RuntimeNamesStripped() && base in jobs[j].RuntimeNamesStripped()
    ensures |Claimants(jobs, base)| >= 2
    decreases |jobs|
  {
    hide StripMatrixSuffix, Strip;
    if i > 0 {
      TiesAreCounted(jobs[1..], base, i - 1, j - 1);
    } else {
      ClaimIsCounted(jobs[1..], base, j - 1);
    }
  }

  lemma {:induction false} ClaimIsCounted(jobs: seq<Job>, base: string, j: nat)
    requires j < |jobs| && base in jobs[j].RuntimeNamesStripped()
    ensures |Claimants(jobs, base)| >= 1
    decreases |jobs|
  {
    hide StripMatrixSuffix, Strip;
    if j > 0 { ClaimIsCounted(jobs[1..], base, j - 1); }
  }

  /** A tie on the stripped name is never broken by guessing: without other evidence the answer is none. */
  lemma TieDeclines(jobs: seq<Job>, base: string, i: nat, j: nat)
    requires i < j < |jobs| && base != "" && Find(base, " / ") == None && Dynamics(jobs) == []
    requires base in jobs[i].RuntimeNamesStripped() && base in jobs[j].RuntimeNamesStripped()
    ensures JobForRuntimeName(jobs, None, Some(base)) == None
  {
    TiesAreCounted(jobs, base, i, j);
  }

  // ---------------------------------------------------------------- which job a name means

  /** Job `i` is the only one with the stripped name. */
  ghost predicate OnlyClaimant(jobs: seq<Job>, base: string, i: nat) {
    i < |jobs| && forall j | 0 <= j < |jobs| :: base in jobs[j].RuntimeNamesStripped() <==> j == i
  }

  ghost predicate NobodyNamed(jobs: seq<Job>, name: Option<string>) {
    name.Some? && name.value != "" ==> forall j | 0 <= j < |jobs| :: name.value !in jobs[j].RuntimeNames()
  }

  /** No name, or none or several with that stripped name. */
  ghost predicate NoOnlyClaimant(jobs: seq<Job>, base: Option<string>) {
    base.Some? && base.value != "" ==> forall i: nat :: !OnlyClaimant(jobs, base.value, i)
  }

  /** Job `i` is the first whose names, plain or stripped, contain what stands before the first " / ". */
  ghost predicate IsFirstCaller(jobs: seq<Job>, candidate: string, i: nat) {
    i < |jobs| && exists at: nat :: IsFirstSeparator(candidate, at) && CalledBy(jobs[i], candidate[..at])
                                    && forall j | 0 <= j < i :: !CalledBy(jobs[j], candidate[..at])
  }

  predicate CalledBy(job: Job, caller: string) {
    Strip(caller) in job.RuntimeNames() || Strip(caller) in job.RuntimeNamesStripped()
  }

  predicate SeparatesAt(s: string, at: nat) { at + 3 <= |s| && s[at..at + 3] == " / " }

  ghost predicate IsFirstSeparator(s: string, at: nat) {
    SeparatesAt(s, at) && forall k: nat | k < at :: !SeparatesAt(s, k)
  }

  ghost predicate NoCaller(jobs: seq<Job>, candidate: Option<string>) {
    candidate.Some? ==> forall i: nat :: !IsFirstCaller(jobs, candidate.value, i)
  }

  ghost predicate OnlyDynamic(jobs: seq<Job>, i: nat) {
    i < |jobs| && forall j | 0 <= j < |jobs| :: jobs[j].HasDynamicName() <==> j == i
  }

  lemma SeparatorShifts(s: string, at: nat)
    requires s != ""
    ensures SeparatesAt(s, at + 1) <==> SeparatesAt(s[1..], at)
    ensures SeparatesAt(s, 0) <==> |s| >= 3 && s[..3] == " / "
  {
    if at + 4 <= |s| { assert s[at + 1..at + 4] == s[1..][at..at + 3]; }
    if |s| >= 3 { assert s[0..3] == s[..3]; }
  }

  lemma {:induction false} FindIsFirst(s: string)
    ensures match Find(s, " / ")
            case Some(at) => IsFirstSeparator(s, at)
            case None => forall at: nat :: !SeparatesAt(s, at)
    decreases |s|
  {
    if s != "" {
      SeparatorShifts(s, 0);
      forall at: nat ensures SeparatesAt(s, at) <==> if at == 0 then SeparatesAt(s, 0) else SeparatesAt(s[1..], at - 1) {
        if at > 0 { SeparatorShifts(s, at - 1); }
      }
      if !SeparatesAt(s, 0) && |s| >= 3 { FindIsFirst(s[1..]); }
      hide SeparatesAt;
    }
  }

  lemma SeparatorIsUnique(s: string, a: nat, b: nat)
    requires IsFirstSeparator(s, a) && IsFirstSeparator(s, b)
    ensures a == b
  {
  }

  lemma {:induction false} FirstNamedMeans(jobs: seq<Job>, name: string)
    ensures match FirstNamed(jobs, name)
            case None => forall j | 0 <= j < |jobs| :: name !in jobs[j].RuntimeNames()
            case Some(job) => exists i :: 0 <= i < |jobs| && jobs[i] == job && name in job.RuntimeNames()
                                          && forall j | 0 <= j < i :: name !in jobs[j].RuntimeNames()
    decreases |jobs|
  {
    if jobs != [] && name !in jobs[0].RuntimeNames() {
      FirstNamedMeans(jobs[1..], name);
      var tail := jobs[1..];
      assert forall j | 0 < j < |jobs| :: jobs[j] == tail[j - 1];
      if FirstNamed(tail, name).Some? {
        var job := FirstNamed(tail, name).value;
        var i :| 0 <= i < |tail| && tail[i] == job && name in job.RuntimeNames()
                 && forall j | 0 <= j < i :: name !in tail[j].RuntimeNames();
        assert jobs[i + 1] == job;
      }
    }
  }

  lemma {:induction false} FirstCallerMeans(jobs: seq<Job>, caller: string)
    ensures match FirstCaller(jobs, Strip(caller))
            case None => forall j | 0 <= j < |jobs| :: !CalledBy(jobs[j], caller)
            case Some(job) => exists i :: 0 <= i < |jobs| && jobs[i] == job && CalledBy(job, caller)
                                          && forall j | 0 <= j < i :: !CalledBy(jobs[j], caller)
    decreases |jobs|
  {
    if jobs != [] && !CalledBy(jobs[0], caller) {
      FirstCallerMeans(jobs[1..], caller);
      var tail := jobs[1..];
      assert forall j | 0 < j < |jobs| :: jobs[j] == tail[j - 1];
      if FirstCaller(tail, Strip(caller)).Some? {
        var job := FirstCaller(tail, Strip(caller)).value;
        var i :| 0 <= i < |tail| && tail[i] == job && CalledBy(job, caller)
                 && forall j | 0 <= j < i :: !CalledBy(tail[j], caller);
        assert jobs[i + 1] == job;
      }
    }
  }

  lemma {:induction false} NoClaimant(jobs: seq<Job>, base: string)
    requires forall j | 0 <= j < |jobs| :: base !in jobs[j].RuntimeNamesStripped()
    ensures Claimants(jobs, base) == []
    decreases |jobs|
  {
    hide StripMatrixSuffix, Strip;
    if jobs != [] { NoClaimant(jobs[1..], base); }
  }

  lemma {:induction false} OneClaimant(jobs: seq<Job>, base: string, i: nat)
    requires OnlyClaimant(jobs, base, i)
    ensures Claimants(jobs, base) == [jobs[i]]
    decreases |jobs|
  {
    var tail := jobs[1..];
    assert forall j | 0 < j < |jobs| :: jobs[j] == tail[j - 1];
    if i == 0 {
      NoClaimant(tail, base);
    } else {
      assert OnlyClaimant(tail, base, i - 1);
      OneClaimant(tail, base, i - 1);
    }
  }

  lemma {:induction false} ClaimantsFind(jobs: seq<Job>, base: string) returns (i: nat)
    requires Claimants(jobs, base) != []
    ensures i < |jobs| && base in jobs[i].RuntimeNamesStripped()
    decreases |jobs|
  {
    hide StripMatrixSuffix, Strip;
    i := 0;
    if base !in jobs[0].RuntimeNamesStripped() {
      i := ClaimantsFind(jobs[1..], base);
      i := i + 1;
    }
  }

  /** One claimant is counted exactly when there is exactly one. */
  lemma ClaimantsAreCounted(jobs: seq<Job>, base: string)
    requires forall i: nat :: !OnlyClaimant(jobs, base, i)
    ensures |Claimants(jobs, base)| != 1
  {
    if |Claimants(jobs, base)| == 1 {
      var i := ClaimantsFind(jobs, base);
      assert !OnlyClaimant(jobs, base, i);
      var j :| 0 <= j < |jobs| && j != i && base in jobs[j].RuntimeNamesStripped();
      if i < j { TiesAreCounted(jobs, base, i, j); } else { TiesAreCounted(jobs, base, j, i); }
    }
  }

  lemma {:induction false} NoDynamics(jobs: seq<Job>)
    requires forall j | 0 <= j < |jobs| :: !jobs[j].HasDynamicName()
    ensures Dynamics(jobs) == []
    decreases |jobs|
  {
    if jobs != [] { NoDynamics(jobs[1..]); }
  }

  lemma {:induction false} OneDynamic(jobs: seq<Job>, i: nat)
    requires OnlyDynamic(jobs, i)
    ensures Dynamics(jobs) == [jobs[i]]
    decreases |jobs|
  {
    var tail := jobs[1..];
    assert forall j | 0 < j < |jobs| :: jobs[j] == tail[j - 1];
    if i == 0 {
      NoDynamics(tail);
    } else {
      assert OnlyDynamic(tail, i - 1);
      OneDynamic(tail, i - 1);
    }
  }

  lemma {:induction false} DynamicIsCounted(jobs: seq<Job>, i: nat)
    requires i < |jobs| && jobs[i].HasDynamicName()
    ensures |Dynamics(jobs)| >= 1
    ensures forall j | i < j < |jobs| && jobs[j].HasDynamicName() :: |Dynamics(jobs)| >= 2
    decreases |jobs|
  {
    var tail := jobs[1..];
    assert forall j | 0 < j < |jobs| :: jobs[j] == tail[j - 1];
    if i > 0 {
      DynamicIsCounted(tail, i - 1);
    } else if j :| 0 < j < |jobs| && jobs[j].HasDynamicName() {
      assert tail[j - 1].HasDynamicName();
      DynamicIsCounted(tail, j - 1);
    }
  }

  lemma {:induction false} DynamicsFind(jobs: seq<Job>) returns (i: nat)
    requires Dynamics(jobs) != []
    ensures i < |jobs| && jobs[i].HasDynamicName()
    decreases |jobs|
  {
    i := 0;
    if !jobs[0].HasDynamicName() {
      i := DynamicsFind(jobs[1..]);
      i := i + 1;
    }
  }

  lemma DynamicsAreCounted(jobs: seq<Job>)
    requires forall i: nat :: !OnlyDynamic(jobs, i)
    ensures |Dynamics(jobs)| != 1
  {
    if |Dynamics(jobs)| == 1 {
      var i := DynamicsFind(jobs);
      assert !OnlyDynamic(jobs, i);
      var j :| 0 <= j < |jobs| && j != i && jobs[j].HasDynamicName();
      DynamicIsCounted(jobs, if i < j then i else j);
    }
  }

  lemma CallerResolves(jobs: seq<Job>, candidate: Option<string>)
    ensures NoCaller(jobs, candidate) ==> ByCaller(jobs, candidate) == None
    ensures candidate.Some? ==> forall i: nat | IsFirstCaller(jobs, candidate.value, i) ::
              ByCaller(jobs, candidate) == Some(jobs[i])
  {
    if candidate.Some? {
      var s := candidate.value;
      FindIsFirst(s);
      if Find(s, " / ").Some? {
        var at := Find(s, " / ").value;
        FirstCallerMeans(jobs, s[..at]);
        hide Strip, StripMatrixSuffix, CalledBy;
        if FirstCaller(jobs, Strip(s[..at])).Some? {
          var i: nat :| i < |jobs| && FirstCaller(jobs, Strip(s[..at])) == Some(jobs[i]) && CalledBy(jobs[i], s[..at])
                        && forall j | 0 <= j < i :: !CalledBy(jobs[j], s[..at]);
          assert IsFirstCaller(jobs, s, i);
          forall k: nat | IsFirstCaller(jobs, s, k) ensures k == i {
            var b: nat :| IsFirstSeparator(s, b) && CalledBy(jobs[k], s[..b]) && forall j | 0 <= j < k :: !CalledBy(jobs[j], s[..b]);
            SeparatorIsUnique(s, at, b);
          }
        } else {
          forall k: nat ensures !IsFirstCaller(jobs, s, k) {
            if IsFirstCaller(jobs, s, k) {
              var b: nat :| IsFirstSeparator(s, b) && CalledBy(jobs[k], s[..b]);
              SeparatorIsUnique(s, at, b);
            }
          }
        }
      }
    }
  }

  /** The first job with the verbatim name is the answer. */
  lemma VerbatimResolves(jobs: seq<Job>, name: string, base: Option<string>, i: nat)
    requires name != "" && i < |jobs| && name in jobs[i].RuntimeNames()
    requires forall j | 0 <= j < i :: name !in jobs[j].RuntimeNames()
    ensures JobForRuntimeName(jobs, Some(name), base) == Some(jobs[i])
  {
    FirstNamedMeans(jobs, name);
    hide FirstNamed, Claimants, ByCaller, Dynamics;
  }

  lemma NobodyIsFirst(jobs: seq<Job>, name: Option<string>)
    requires NobodyNamed(jobs, name)
    ensures Given(name) ==> FirstNamed(jobs, name.value) == None
  {
    if Given(name) { FirstNamedMeans(jobs, name.value); }
  }

  /** Failing that, the one job that claims the stripped name. */
  lemma ClaimantResolves(jobs: seq<Job>, name: Option<string>, base: string, i: nat)
    requires NobodyNamed(jobs, name) && base != "" && OnlyClaimant(jobs, base, i)
    ensures JobForRuntimeName(jobs, name, Some(base)) == Some(jobs[i])
  {
    NobodyIsFirst(jobs, name);
    OneClaimant(jobs, base, i);
    hide FirstNamed, Claimants, ByCaller, Dynamics, NobodyNamed;
  }

  lemma NoClaimantCounts(jobs: seq<Job>, base: Option<string>)
    requires NoOnlyClaimant(jobs, base)
    ensures Given(base) ==> |Claimants(jobs, base.value)| != 1
  {
    if Given(base) { ClaimantsAreCounted(jobs, base.value); }
  }

  /** Failing that, the first job whose name stands before the separator, in the verbatim name, else in the base. */
  lemma CallerIsNext(jobs: seq<Job>, name: Option<string>, base: Option<string>, i: nat)
    requires NobodyNamed(jobs, name) && NoOnlyClaimant(jobs, base)
    requires if NoCaller(jobs, name) then base.Some? && IsFirstCaller(jobs, base.value, i)
             else name.Some? && IsFirstCaller(jobs, name.value, i)
    ensures JobForRuntimeName(jobs, name, base) == Some(jobs[i])
  {
    NobodyIsFirst(jobs, name);
    NoClaimantCounts(jobs, base);
    CallerResolves(jobs, name);
    CallerResolves(jobs, base);
    hide FirstNamed, Claimants, ByCaller, Dynamics, NobodyNamed, NoOnlyClaimant, IsFirstCaller;
  }

  /** Failing that, the only job whose name is nothing but expressions; and none at all when there is not just one. */
  lemma EliminationIsLast(jobs: seq<Job>, name: Option<string>, base: Option<string>)
    requires NobodyNamed(jobs, name) && NoOnlyClaimant(jobs, base) && NoCaller(jobs, name) && NoCaller(jobs, base)
    ensures forall i: nat | OnlyDynamic(jobs, i) :: JobForRuntimeName(jobs, name, base) == Some(jobs[i])
    ensures (forall i: nat :: !OnlyDynamic(jobs, i)) ==> JobForRuntimeName(jobs, name, base) == None
  {
    NobodyIsFirst(jobs, name);
    NoClaimantCounts(jobs, base);
    CallerResolves(jobs, name);
    CallerResolves(jobs, base);
    hide FirstNamed, Claimants, ByCaller, NobodyNamed, NoOnlyClaimant, NoCaller;
    forall i: nat | OnlyDynamic(jobs, i) ensures JobForRuntimeName(jobs, name, base) == Some(jobs[i]) {
      OneDynamic(jobs, i);
    }
    if forall i: nat :: !OnlyDynamic(jobs, i) { DynamicsAreCounted(jobs); }
  }

  // ---------------------------------------------------------------- what the names of a job are

  /** A job answers to its key, and to its name as far as that is not made of expressions. */
  lemma NamesOfJobs(key: string, name: string)
    requires Trimmed(name)
    ensures Job(key, []).RuntimeNames() == {key} && !Job(key, []).HasDynamicName()
    ensures Job(key, [Literal(name)]).RuntimeNames() == {key, name} && !Job(key, [Literal(name)]).HasDynamicName()
  {
    assert [Literal(name)][1..] == [] && LiteralText([Literal(name)]) == name + "" == name;
    TrimmedStays(name);
    hide LStrip, RStrip, Strip;
    assert Job(key, [Literal(name)]).Static() == name;
    assert LiteralText([]) == "" && Job(key, []).Static() == "" by { EmptyStrips(); }
  }

  lemma EmptyStrips()
    ensures Strip("") == ""
  {
  }

  /** Of a template, what stands between the expressions survives. */
  lemma NamesOfTemplates(key: string, name: string)
    requires Trimmed(name)
    ensures Job(key, [Literal(name), Literal(" "), Expression]).RuntimeNames() == {key, name}
    ensures !Job(key, [Literal(name), Literal(" "), Expression]).HasDynamicName()
  {
    var tokens := [Literal(name), Literal(" "), Expression];
    assert tokens[1..] == [Literal(" "), Expression] && tokens[1..][1..] == [Expression] && [Expression][1..] == [];
    assert LiteralText(tokens[1..]) == " " && LiteralText(tokens) == name + " ";
    TrimmedStays(name);
    assert LStrip(name + " ") == name + " ";
    hide LStrip, RStrip;
    assert Job(key, tokens).Static() == name;
  }

  /** A name of nothing but expressions and blanks leaves the key alone. */
  lemma NamesOfExpressions(key: string)
    ensures Job(key, [Expression]).RuntimeNames() == {key} && Job(key, [Expression]).HasDynamicName()
    ensures Job(key, [Expression, Literal(" "), Expression]).RuntimeNames() == {key}
    ensures Job(key, [Expression, Literal(" "), Expression]).HasDynamicName()
  {
    var tokens := [Expression, Literal(" "), Expression];
    assert [Expression][1..] == [] && tokens[1..] == [Literal(" "), Expression] && tokens[1..][1..] == [Expression];
    assert LiteralText([Expression]) == "" && LiteralText(tokens[1..]) == " " && LiteralText(tokens) == " ";
    assert LStrip(" ") == "" && Strip(" ") == "" && Strip("") == "";
    assert [Expression][0] != Literal("") && tokens[0] != Literal("");
  }

  lemma TrimmedStays(s: string)
    requires Trimmed(s)
    ensures Strip(s) == s && LStrip(s) == s && RStrip(s) == s && RStrip(s + " ") == s
  {
    assert (s + " ")[..|s|] == s;
  }

  lemma {:induction false} OpeningParenFinds(a: string, inner: string)
    requires '(' !in inner && ')' !in inner
    ensures OpeningParen(a + "(" + inner) == Some(|a|)
    decreases |inner|
  {
    var s := a + "(" + inner;
    if inner == "" {
      assert s[|s| - 1] == '(';
    } else {
      var k := |inner| - 1;
      assert s[..|s| - 1] == a + "(" + inner[..k] && s[|s| - 1] == inner[k] && inner[k] in inner;
      OpeningParenFinds(a, inner[..k]);
    }
  }

  /** A matrix suffix goes, with the blank before it; a name that ends otherwise stays as it is. */
  lemma SuffixIsStripped(base: string, inner: string)
    requires Trimmed(base) && '(' !in inner && ')' !in inner
    ensures StripMatrixSuffix(base + " (" + inner + ")") == base
  {
    var name := base + " (" + inner + ")";
    assert name[|name| - 1] == ')' && !IsSpace(')');
    assert RStrip(name) == name;
    assert name[..|name| - 1] == (base + " ") + "(" + inner;
    OpeningParenFinds(base + " ", inner);
    assert name[..|base| + 1] == base + " ";
    TrimmedStays(base);
    assert LStrip(base + " ") == base + " ";
  }

  lemma OtherNamesStay(name: string)
    requires RStrip(name) == "" || RStrip(name)[|RStrip(name)| - 1] != ')'
    ensures StripMatrixSuffix(name) == name
  {
  }

  /** Nothing is stripped down to nothing: a name that is only a parenthesis stays. */
  lemma BareSuffixStays(inner: string)
    requires '(' !in inner && ')' !in inner
    ensures StripMatrixSuffix("(" + inner + ")") == "(" + inner + ")"
  {
    var name := "(" + inner + ")";
    assert name[|name| - 1] == ')' && RStrip(name) == name;
    assert name[..|name| - 1] == "" + "(" + inner;
    OpeningParenFinds("", inner);
  }

  // ---------------------------------------------------------------- the naive index

  datatype Row = Row(base: Option<string>, jobName: Option<string>, path: Option<string>, step: string,
                     runId: int, dur: Option<real>)

  datatype Series = Series(job: Option<string>, step: string, durations: seq<real>, runIds: seq<int>)

  datatype Key = ByName(base: Option<string>, step: string) | ByJob(path: string, job: string, step: string)

  /** The last parsable workflow at a path, as a dictionary comprehension keeps it. */
  function WorkflowAt(workflows: seq<Workflow>, path: string): Option<Workflow> {
    if workflows == [] then None
    else
      var last := workflows[|workflows| - 1];
      if last.parses && last.path == path then Some(last) else WorkflowAt(workflows[..|workflows| - 1], path)
  }

  /** Workflow `i` is the last one at the path that could be parsed. */
  ghost predicate IsLastAt(workflows: seq<Workflow>, path: string, i: nat) {
    && i < |workflows| && workflows[i].parses && workflows[i].path == path
    && forall k | i < k < |workflows| :: !(workflows[k].parses && workflows[k].path == path)
  }

  lemma {:induction false} WorkflowAtMeans(workflows: seq<Workflow>, path: string)
    ensures forall i: nat | IsLastAt(workflows, path, i) :: WorkflowAt(workflows, path) == Some(workflows[i])
    ensures (forall i: nat :: !IsLastAt(workflows, path, i)) ==> WorkflowAt(workflows, path) == None
    decreases |workflows|
  {
    if workflows != [] {
      var k := |workflows| - 1;
      var front := workflows[..k];
      WorkflowAtMeans(front, path);
      if workflows[k].parses && workflows[k].path == path {
        assert IsLastAt(workflows, path, k);
      } else {
        forall i: nat ensures IsLastAt(workflows, path, i) <==> IsLastAt(front, path, i) {}
      }
    }
  }

  /** The config job a row belongs to, by a direct lookup in the row's own workflow. */
  function JobKeyOf(workflows: seq<Workflow>, path: Option<string>, name: Option<string>, base: Option<string>)
    : Option<string>
  {
    if path.None? || WorkflowAt(workflows, path.value).None? then None
    else
      match JobForRuntimeName(WorkflowAt(workflows, path.value).value.jobs, name, base)
      case None => None
      case Some(job) => Some(job.key)
  }

  predicate HasKey(workflows: seq<Workflow>, row: Row, k: Key) {
    match k
    case ByName(base, step) => row.base == base && row.step == step
    case ByJob(path, job, step) =>
      row.path == Some(path) && row.step == step && JobKeyOf(workflows, row.path, row.jobName, row.base) == Some(job)
  }

  /** A row belongs to the config job that its own name and base resolve to in its own workflow. */
  lemma RowKeyMeans(workflows: seq<Workflow>, row: Row, path: string, job: string, step: string)
    ensures HasKey(workflows, row, ByJob(path, job, step)) <==>
              && row.path == Some(path) && row.step == step
              && exists i: nat :: IsLastAt(workflows, path, i)
                   && JobForRuntimeName(workflows[i].jobs, row.jobName, row.base).Some?
                   && JobForRuntimeName(workflows[i].jobs, row.jobName, row.base).value.key == job
    ensures HasKey(workflows, row, ByName(row.base, step)) <==> row.step == step
  {
    WorkflowAtMeans(workflows, path);
    hide WorkflowAt, JobForRuntimeName;
    if i: nat :| IsLastAt(workflows, path, i) {
      forall k: nat | IsLastAt(workflows, path, k) ensures workflows[k] == workflows[i] {
        assert WorkflowAt(workflows, path) == Some(workflows[k]);
      }
    }
  }

  /** The timed rows with a key, in order. */
  function Timed(workflows: seq<Workflow>, rows: seq<Row>, k: Key): seq<Row> {
    if rows == [] then []
    else
      var last := rows[|rows| - 1];
      Timed(workflows, rows[..|rows| - 1], k) + if last.dur.Some? && HasKey(workflows, last, k) then [last] else []
  }

  ghost predicate IsSeries(s: Series, k: Key, timed: seq<Row>) {
    && s.step == k.step && s.job == (match k case ByName(base, _) => base case ByJob(_, job, _) => Some(job))
    && |s.durations| == |s.runIds| == |timed|
    && forall i | 0 <= i < |timed| :: timed[i].dur == Some(s.durations[i]) && timed[i].runId == s.runIds[i]
  }

  /** One series per display name seen, even if nothing under it was timed. */
  ghost predicate IsNameIndex(workflows: seq<Workflow>, rows: seq<Row>, index: map<Key, Series>) {
    && (forall k | k in index :: k.ByName? && IsSeries(index[k], k, Timed(workflows, rows, k)))
    && (forall k: Key :: k in index <==> k.ByName? && exists i :: 0 <= i < |rows| && HasKey(workflows, rows[i], k))
  }

  /** One series per resolved key that some row was timed under. */
  ghost predicate IsJobIndex(workflows: seq<Workflow>, rows: seq<Row>, index: map<Key, Series>) {
    && (forall k | k in index :: k.ByJob? && IsSeries(index[k], k, Timed(workflows, rows, k)))
    && (forall k: Key :: k in index <==> k.ByJob? && Timed(workflows, rows, k) != [])
  }

  // ---------------------------------------------------------------- the memoised pass

  ghost predicate IsMemo(workflows: seq<Workflow>, memo: map<(Option<string>, Option<string>, Option<string>), Option<string>>) {
    forall m | m in memo :: memo[m] == JobKeyOf(workflows, m.0, m.1, m.2)
  }

  function Add(s: Series, row: Row): Series
    requires row.dur.Some?
  {
    s.(durations := s.durations + [row.dur.value], runIds := s.runIds + [row.runId])
  }

  function Opened(index: map<Key, Series>, k: Key): Series {
    if k in index then index[k]
    else Series(match k case ByName(base, _) => base case ByJob(_, job, _) => Some(job), k.step, [], [])
  }

  lemma SeriesGrows(s: Series, k: Key, timed: seq<Row>, row: Row)
    requires IsSeries(s, k, timed) && row.dur.Some?
    ensures IsSeries(Add(s, row), k, timed + [row])
  {
  }

  lemma TimedGrows(workflows: seq<Workflow>, rows: seq<Row>, row: Row, k: Key)
    ensures Timed(workflows, rows + [row], k) ==
            Timed(workflows, rows, k) + if row.dur.Some? && HasKey(workflows, row, k) then [row] else []
  {
    assert (rows + [row])[..|rows|] == rows;
  }

  lemma {:induction false} UntimedIsEmpty(workflows: seq<Workflow>, rows: seq<Row>, k: Key)
    requires forall i | 0 <= i < |rows| :: !HasKey(workflows, rows[i], k)
    ensures Timed(workflows, rows, k) == []
    decreases |rows|
  {
    if rows != [] { UntimedIsEmpty(workflows, rows[..|rows| - 1], k); }
  }

  lemma NameIndexGrows(workflows: seq<Workflow>, rows: seq<Row>, row: Row, index: map<Key, Series>)
    requires IsNameIndex(workflows, rows, index)
    ensures var k := ByName(row.base, row.step); var s := Opened(index, k);
            IsNameIndex(workflows, rows + [row], index[k := if row.dur.Some? then Add(s, row) else s])
  {
    var k0 := ByName(row.base, row.step);
    var s := Opened(index, k0);
    var next := index[k0 := if row.dur.Some? then Add(s, row) else s];
    var all := rows + [row];
    assert all[|rows|] == row && forall i | 0 <= i < |rows| :: all[i] == rows[i];
    forall k: Key ensures k in next <==> k.ByName? && exists i :: 0 <= i < |all| && HasKey(workflows, all[i], k) {
      if k.ByName? && HasKey(workflows, row, k) { assert k == k0 && HasKey(workflows, all[|rows|], k); }
      if k in index { var i :| 0 <= i < |rows| && HasKey(workflows, rows[i], k); assert HasKey(workflows, all[i], k); }
    }
    forall k | k in next ensures k.ByName? && IsSeries(next[k], k, Timed(workflows, all, k)) {
      TimedGrows(workflows, rows, row, k);
      if k == k0 {
        if k !in index { UntimedIsEmpty(workflows, rows, k); }
        if row.dur.Some? { SeriesGrows(s, k, Timed(workflows, rows, k), row); }
      }
    }
  }

  lemma JobIndexGrows(workflows: seq<Workflow>, rows: seq<Row>, row: Row, index: map<Key, Series>)
    requires IsJobIndex(workflows, rows, index)
    ensures var job := JobKeyOf(workflows, row.path, row.jobName, row.base);
            if row.dur.None? || job.None? then IsJobIndex(workflows, rows + [row], index)
            else
              var k := ByJob(row.path.value, job.value, row.step);
              IsJobIndex(workflows, rows + [row], index[k := Add(Opened(index, k), row)])
  {
    hide WorkflowAt, JobForRuntimeName, IsJobIndex, Timed, IsSeries, Add, Opened;
    var job := JobKeyOf(workflows, row.path, row.jobName, row.base);
    if row.dur.None? || job.None? {
      JobIndexSkips(workflows, rows, row, index);
    } else {
      JobIndexAdds(workflows, rows, row, index, ByJob(row.path.value, job.value, row.step));
    }
  }

  lemma JobIndexSkips(workflows: seq<Workflow>, rows: seq<Row>, row: Row, index: map<Key, Series>)
    requires IsJobIndex(workflows, rows, index)
    requires row.dur.None? || forall k: Key | k.ByJob? :: !HasKey(workflows, row, k)
    ensures IsJobIndex(workflows, rows + [row], index)
  {
    hide HasKey, IsSeries;
    forall k: Key | k.ByJob? ensures Timed(workflows, rows + [row], k) == Timed(workflows, rows, k) {
      TimedGrows(workflows, rows, row, k);
    }
    hide Timed;
  }

  lemma JobIndexAdds(workflows: seq<Workflow>, rows: seq<Row>, row: Row, index: map<Key, Series>, key: Key)
    requires IsJobIndex(workflows, rows, index) && key.ByJob? && row.dur.Some?
    requires forall k: Key | k.ByJob? :: HasKey(workflows, row, k) <==> k == key
    ensures IsJobIndex(workflows, rows + [row], index[key := Add(Opened(index, key), row)])
  {
    hide HasKey, Timed, IsSeries, Opened, Add;
    OpenedIsSeries(workflows, rows, index, key);
    SeriesGrows(Opened(index, key), key, Timed(workflows, rows, key), row);
    forall k: Key | k.ByJob?
      ensures Timed(workflows, rows + [row], k) == if k == key then Timed(workflows, rows, k) + [row] else Timed(workflows, rows, k)
    {
      TimedGrows(workflows, rows, row, k);
    }
  }

  lemma OpenedIsSeries(workflows: seq<Workflow>, rows: seq<Row>, index: map<Key, Series>, key: Key)
    requires IsJobIndex(workflows, rows, index) && key.ByJob?
    ensures IsSeries(Opened(index, key), key, Timed(workflows, rows, key))
  {
    hide Timed;
  }

  /** The memo of audit.py:265-269: asked once per distinct job, it answers what a direct call would. */
  method LookUpJob(workflows: seq<Workflow>, row: Row,
                   memo: map<(Option<string>, Option<string>, Option<string>), Option<string>>)
    returns (job: Option<string>, memo': map<(Option<string>, Option<string>, Option<string>), Option<string>>)
    requires IsMemo(workflows, memo)
    ensures IsMemo(workflows, memo') && job == JobKeyOf(workflows, row.path, row.jobName, row.base)
  {
    var id := (row.path, row.jobName, row.base);
    memo' := if id in memo then memo else memo[id := JobKeyOf(workflows, row.path, row.jobName, row.base)];
    job := memo'[id];
  }

  method IndexStepRows(rows: seq<Row>, workflows: seq<Workflow>)
    returns (byName: map<Key, Series>, resolved: map<Key, Series>)
    ensures IsNameIndex(workflows, rows, byName)
    ensures IsJobIndex(workflows, rows, resolved)
  {
    byName, resolved := map[], map[];
    var memo: map<(Option<string>, Option<string>, Option<string>), Option<string>> := map[];
    assert IsNameIndex(workflows, rows[..0], byName) && IsJobIndex(workflows, rows[..0], resolved);
    hide IsNameIndex, IsJobIndex, IsMemo, JobForRuntimeName, WorkflowAt;
    for i := 0 to |rows|
      invariant IsNameIndex(workflows, rows[..i], byName)
      invariant IsJobIndex(workflows, rows[..i], resolved)
      invariant IsMemo(workflows, memo)
    {
      var row := rows[i];
      assert rows[..i + 1] == rows[..i] + [row];
      NameIndexGrows(workflows, rows[..i], row, byName);
      JobIndexGrows(workflows, rows[..i], row, resolved);
      var key := ByName(row.base, row.step);
      byName := byName[key := Opened(byName, key)];
      if row.dur.Some? {
        byName := byName[key := Add(byName[key], row)];
        var job;
        job, memo := LookUpJob(workflows, row, memo);
        if job.Some? {
          var rkey := ByJob(row.path.value, job.value, row.step);
          resolved := resolved[rkey := Add(Opened(resolved, rkey), row)];
        }
      }
    }
    assert rows[..|rows|] == rows;
  }
}
