/** The finding lifecycle: audits, suppressions and their interleavings
    (src/cadence/findings.py, src/cadence/suppress.py, src/cadence/audit.py:420-446). */
module Findings {
  import opened Common
  import opened Text
  import opened Lines

  datatype Status = New | Acknowledged | Resolved | Suppressed | Regressed

  datatype Scope = OneFinding | RulePath | RuleRepo

  datatype Source = IgnoreFile | Inline | Cli | ClosedPr

  datatype Silence = Silence(scope: Scope, reason: string, source: Source)

  /** A row is identified by its repository and its semantic key. */
  datatype Id = Id(repo: nat, key: string)

  datatype Finding = Finding(kind: string, status: Status, silence: Option<Silence>, firstSeen: string,
                             lastSeen: string, evidence: seq<string>, seconds: Option<real>)

  type Ledger = map<Id, Finding>

  /** What a detector returns; a draft without evidence cannot be constructed. */
  datatype RawDraft = Draft(kind: string, key: string, evidence: seq<string>, seconds: Option<real>)
  type Draft = d: RawDraft | d.evidence != [] witness RawDraft.Draft("", "", ["e"], None)

  predicate Open(s: Status) { s == New || s == Acknowledged || s == Regressed }

  function Lookup(l: Ledger, id: Id): Option<Finding> { if id in l then Some(l[id]) else None }

  // ---------------------------------------------------------------- persisting one audit

  datatype Stats = Stats(added: nat, updated: nat, regressed: nat)

  function PersistOne(existing: Option<Finding>, d: Draft, commit: string): Finding {
    match existing
    case None => Finding(d.kind, New, None, commit, commit, d.evidence, d.seconds)
    case Some(f) => f.(status := if f.status == Resolved then Regressed else f.status, lastSeen := commit,
                       evidence := d.evidence, seconds := d.seconds)
  }

  function PersistAll(l: Ledger, repo: nat, drafts: seq<Draft>, commit: string): Ledger {
    if drafts == [] then l
    else
      var k := |drafts| - 1;
      var before := PersistAll(l, repo, drafts[..k], commit);
      var id := Id(repo, drafts[k].key);
      before[id := PersistOne(Lookup(before, id), drafts[k], commit)]
  }

  /** The rows that differ. */
  function Changed(a: Ledger, b: Ledger): set<Id> { set id | id in a && id in b && a[id] != b[id] }

  lemma ChangedMeans(a: Ledger, b: Ledger)
    requires a.Keys == b.Keys
    ensures Changed(a, b) == set id | id in a && a[id] != b[id]
    ensures Changed(a, b) == set id | id in b && b[id] != a[id]
  {
  }

  predicate CameBack(was: Option<Finding>) {
    was.Some? && (was.value.status == Resolved || was.value.status == Regressed)
  }

  /** Drafts whose key stood resolved, or regressed already, before the audit began. */
  function Returning(l: Ledger, repo: nat, drafts: seq<Draft>): nat {
    if drafts == [] then 0
    else
      var k := |drafts| - 1;
      Returning(l, repo, drafts[..k]) + if CameBack(Lookup(l, Id(repo, drafts[k].key))) then 1 else 0
  }

  function ResolveRow(id: Id, f: Finding, repo: nat, seen: set<string>, commit: string): Finding {
    if id.repo == repo && Open(f.status) && id.key !in seen then f.(status := Resolved, lastSeen := commit) else f
  }

  function ResolveAll(l: Ledger, repo: nat, seen: set<string>, commit: string): Ledger {
    if seen == {} then l else map id | id in l :: ResolveRow(id, l[id], repo, seen, commit)
  }

  function Keys(drafts: seq<Draft>): set<string> { set k | 0 <= k < |drafts| :: drafts[k].key }

  /** An audit that found nothing writes nothing. */
  function Audited(l: Ledger, repo: nat, drafts: seq<Draft>, commit: string): Ledger {
    if drafts == [] then l else ResolveAll(PersistAll(l, repo, drafts, commit), repo, Keys(drafts), commit)
  }

  // ---------------------------------------------------------------- suppression rules

  datatype Rule = Rule(rule: string, reason: string, source: Source, path: Option<string>, job: Option<string>)
  {
    function EffectiveScope(): Scope {
      if job.Some? && job.value != "" then OneFinding else if path.Some? && path.value != "" then RulePath else RuleRepo
    }

    predicate Matches(kind: string, key: string) {
      && kind == rule
      && (path.None? ||
          (var parts := SplitOn(key, ':');
           path.value in parts && (job.None? || job.value in parts)))
    }
  }

  function FirstMatch(rules: seq<Rule>, kind: string, key: string): Option<Rule> {
    if rules == [] then None
    else if rules[0].Matches(kind, key) then Some(rules[0]) else FirstMatch(rules[1..], kind, key)
  }

  function ApplyRow(id: Id, f: Finding, repo: nat, rules: seq<Rule>, commit: string): Finding {
    var m := FirstMatch(rules, f.kind, id.key);
    if id.repo != repo || m.None? || f.status == Suppressed then f
    else f.(status := Suppressed, silence := Some(Silence(m.value.EffectiveScope(), m.value.reason, m.value.source)),
            lastSeen := commit)
  }

  function Applied(l: Ledger, repo: nat, rules: seq<Rule>, commit: string): Ledger {
    map id | id in l :: ApplyRow(id, l[id], repo, rules, commit)
  }

  /** The database CHECK of migration 006: a suppression carries a reason, and more than spaces (`btrim`). */
  predicate WellSilenced(f: Finding) {
    f.status == Suppressed ==>
      f.silence.Some? && exists i :: 0 <= i < |f.silence.value.reason| && f.silence.value.reason[i] != ' '
  }

  predicate Blank(l: Ledger) { exists id :: id in l && !WellSilenced(l[id]) }

  function SuppressedRow(f: Finding, silence: Silence): Finding { f.(status := Suppressed, silence := Some(silence)) }

  function UnsuppressedRow(f: Finding): Finding {
    if f.status == Suppressed then f.(status := New, silence := None) else f
  }

  // ---------------------------------------------------------------- the store

  datatype Outcome = Done(count: nat) | Rejected

  class FindingStore {
    var findings: Ledger

    constructor ()
      ensures findings == map[]
    {
      findings := map[];
    }

    method PersistFindings(repo: nat, drafts: seq<Draft>, commit: string) returns (stats: Stats)
      modifies this
      ensures findings == PersistAll(old(findings), repo, drafts, commit)
      ensures stats.added + stats.updated + stats.regressed == |drafts|
      ensures stats.added == |findings| - |old(findings)|
      ensures stats.regressed == Returning(old(findings), repo, drafts)
    {
      stats := Stats(0, 0, 0);
      for k := 0 to |drafts|
        invariant findings == PersistAll(old(findings), repo, drafts[..k], commit)
        invariant stats.added + stats.updated + stats.regressed == k
        invariant stats.added == |findings| - |old(findings)|
        invariant stats.regressed == Returning(old(findings), repo, drafts[..k])
      {
        assert drafts[..k + 1][..k] == drafts[..k];
        var id := Id(repo, drafts[k].key);
        ReturnsAsBefore(old(findings), repo, drafts[..k], drafts[k], commit);
        var row := PersistOne(Lookup(findings, id), drafts[k], commit);
        if id !in findings {
          stats := stats.(added := stats.added + 1);
        } else if row.status == Regressed {
          stats := stats.(regressed := stats.regressed + 1);
        } else {
          stats := stats.(updated := stats.updated + 1);
        }
        findings := findings[id := row];
      }
      assert drafts[..|drafts|] == drafts;
    }

    method ResolveMissing(repo: nat, seen: set<string>, commit: string) returns (n: nat)
      modifies this
      ensures findings == ResolveAll(old(findings), repo, seen, commit)
      ensures n == |set id | id in old(findings) && old(findings)[id] != findings[id]|
    {
      var before := findings;
      findings := ResolveAll(findings, repo, seen, commit);
      ChangedMeans(before, findings);
      n := |Changed(before, findings)|;
    }

    /** Persist, then resolve what was not drafted (audit.py:440-446). */
    method RunAudit(repo: nat, drafts: seq<Draft>, commit: string, persist: bool) returns (stats: Option<Stats>)
      modifies this
      ensures findings == if persist then After(old(findings), Audit(repo, drafts, commit)) else old(findings)
      ensures stats.Some? <==> persist && drafts != []
      ensures stats.Some? ==> stats.value.added + stats.value.updated + stats.value.regressed == |drafts|
      ensures stats.Some? ==> stats.value.regressed == Returning(old(findings), repo, drafts)
    {
      stats := None;
      if persist && drafts != [] {
        var s := PersistFindings(repo, drafts, commit);
        var n := ResolveMissing(repo, Keys(drafts), commit);
        stats := Some(s);
      }
    }

    /** One blank reason aborts the whole transaction. */
    method Apply(repo: nat, rules: seq<Rule>, commit: string) returns (outcome: Outcome)
      requires forall id | id in findings :: WellSilenced(findings[id])
      modifies this
      ensures outcome.Rejected? <==> Blank(Applied(old(findings), repo, rules, commit))
      ensures outcome.Rejected? ==> findings == old(findings)
      ensures findings == After(old(findings), ApplyRules(repo, rules, commit))
      ensures outcome.Done? ==> findings.Keys == old(findings).Keys && forall id | id in findings ::
                IsRuled(id, old(findings)[id], repo, rules, commit, findings[id])
      ensures outcome.Done? ==> outcome.count == |set id | id in findings && findings[id] != old(findings)[id]|
    {
      var result := ApplyRows(findings, repo, rules, commit);
      if result.None? {
        return Rejected;
      }
      forall id | id in findings ensures IsRuled(id, findings[id], repo, rules, commit, result.value[id]) {
        RuledAsApplied(id, findings[id], repo, rules, commit);
      }
      ChangedMeans(findings, result.value);
      outcome := Done(|Changed(findings, result.value)|);
      findings := result.value;
    }

    method SuppressOne(id: Id, reason: string, scope: Scope, source: Source) returns (outcome: Outcome)
      modifies this
      ensures outcome.Rejected? <==> Strip(reason) == ""
      ensures findings == if outcome.Done? && id in old(findings) then
                            var f := old(findings)[id];
                            old(findings)[id := Finding(f.kind, Suppressed, Some(Silence(scope, Strip(reason), source)),
                                                        f.firstSeen, f.lastSeen, f.evidence, f.seconds)]
                          else old(findings)
      ensures findings == After(old(findings), Suppress(id, reason, scope, source))
      ensures outcome.Done? ==> (outcome.count == 1 <==> id in old(findings))
    {
      if Strip(reason) == "" {
        return Rejected;
      }
      if id in findings {
        findings := findings[id := SuppressedRow(findings[id], Silence(scope, Strip(reason), source))];
        return Done(1);
      }
      outcome := Done(0);
    }

    method UnsuppressOne(id: Id) returns (ok: bool)
      modifies this
      ensures ok <==> id in old(findings) && old(findings)[id].status == Suppressed
      ensures findings == if ok then
                            var f := old(findings)[id];
                            old(findings)[id := Finding(f.kind, New, None, f.firstSeen, f.lastSeen, f.evidence, f.seconds)]
                          else old(findings)
      ensures findings == After(old(findings), Unsuppress(id))
    {
      ok := id in findings && findings[id].status == Suppressed;
      if ok {
        findings := findings[id := UnsuppressedRow(findings[id])];
      }
    }
  }

  /** The rule at `i` is the first that matches. */
  ghost predicate FirstToMatch(rules: seq<Rule>, kind: string, key: string, i: nat) {
    i < |rules| && rules[i].Matches(kind, key) && forall k | 0 <= k < i :: !rules[k].Matches(kind, key)
  }

  /** A finding, a workflow or the whole repository, by the parts a rule names. */
  ghost function ScopeNamed(r: Rule): Scope {
    if r.job.Some? && r.job.value != "" then OneFinding
    else if r.path.Some? && r.path.value != "" then RulePath else RuleRepo
  }

  /** What applying rules leaves of one row: rows of other repositories, rows already suppressed and rows that no rule
      matches stay as they are; the others record the first rule that matches and keep everything else. */
  ghost predicate IsRuled(id: Id, was: Finding, repo: nat, rules: seq<Rule>, commit: string, now: Finding) {
    if id.repo != repo || was.status == Suppressed || forall k | 0 <= k < |rules| :: !rules[k].Matches(was.kind, id.key)
    then now == was
    else exists i: nat :: FirstToMatch(rules, was.kind, id.key, i) &&
           now == Finding(was.kind, Suppressed, Some(Silence(ScopeNamed(rules[i]), rules[i].reason, rules[i].source)),
                          was.firstSeen, commit, was.evidence, was.seconds)
  }

  lemma {:induction false} FirstMatchMeans(rules: seq<Rule>, kind: string, key: string)
    ensures match FirstMatch(rules, kind, key)
            case None => forall k | 0 <= k < |rules| :: !rules[k].Matches(kind, key)
            case Some(r) => exists i: nat :: FirstToMatch(rules, kind, key, i) && rules[i] == r
    decreases |rules|
  {
    if rules != [] {
      if rules[0].Matches(kind, key) {
        assert FirstToMatch(rules, kind, key, 0);
      } else {
        var tail := rules[1..];
        FirstMatchMeans(tail, kind, key);
        assert forall k | 0 < k < |rules| :: rules[k] == tail[k - 1];
        if FirstMatch(tail, kind, key).Some? {
          var i: nat :| FirstToMatch(tail, kind, key, i) && tail[i] == FirstMatch(tail, kind, key).value;
          assert FirstToMatch(rules, kind, key, i + 1);
        }
      }
    }
  }

  lemma RuledAsApplied(id: Id, was: Finding, repo: nat, rules: seq<Rule>, commit: string)
    ensures IsRuled(id, was, repo, rules, commit, ApplyRow(id, was, repo, rules, commit))
  {
    FirstMatchMeans(rules, was.kind, id.key);
    hide FirstMatch;
  }

  /** The row loop of suppress.py:170-192, stopped by the first row the database refuses. */
  method ApplyRows(l: Ledger, repo: nat, rules: seq<Rule>, commit: string) returns (result: Option<Ledger>)
    requires forall id | id in l :: WellSilenced(l[id])
    ensures result.None? <==> Blank(Applied(l, repo, rules, commit))
    ensures result.Some? ==> result.value == Applied(l, repo, rules, commit)
  {
    hide ApplyRow, WellSilenced, Applied, Blank;
    var out, todo := l, l.Keys;
    while todo != {}
      invariant todo <= l.Keys && out.Keys == l.Keys
      invariant forall id | id in l :: out[id] == if id in todo then l[id] else ApplyRow(id, l[id], repo, rules, commit)
      invariant forall id | id in l :: WellSilenced(out[id])
    {
      var id :| id in todo;
      var row := ApplyRow(id, l[id], repo, rules, commit);
      if !WellSilenced(row) {
        AppliedRow(l, repo, rules, commit, id);
        return None;
      }
      out := out[id := row];
      todo := todo - {id};
    }
    AppliedAll(l, repo, rules, commit, out);
    result := Some(out);
  }

  lemma AppliedRow(l: Ledger, repo: nat, rules: seq<Rule>, commit: string, id: Id)
    requires id in l && !WellSilenced(ApplyRow(id, l[id], repo, rules, commit))
    ensures Blank(Applied(l, repo, rules, commit))
  {
    hide ApplyRow, WellSilenced;
    var applied := Applied(l, repo, rules, commit);
    assert id in applied && !WellSilenced(applied[id]);
  }

  lemma AppliedAll(l: Ledger, repo: nat, rules: seq<Rule>, commit: string, result: Ledger)
    requires result.Keys == l.Keys && forall id | id in l :: result[id] == ApplyRow(id, l[id], repo, rules, commit)
    requires forall id | id in l :: WellSilenced(result[id])
    ensures result == Applied(l, repo, rules, commit) && !Blank(result)
  {
    hide ApplyRow, WellSilenced;
  }

  // ---------------------------------------------------------------- one audit, in closed form

  function LastDraft(drafts: seq<Draft>, key: string): Option<Draft> {
    if drafts == [] then None
    else if drafts[|drafts| - 1].key == key then Some(drafts[|drafts| - 1]) else LastDraft(drafts[..|drafts| - 1], key)
  }

  /** A key drafted twice keeps the kind it was first inserted with. */
  function KindOf(drafts: seq<Draft>, key: string): string {
    if drafts == [] then ""
    else
      var front := KindOf(drafts[..|drafts| - 1], key);
      if LastDraft(drafts[..|drafts| - 1], key).Some? then front
      else if drafts[|drafts| - 1].key == key then drafts[|drafts| - 1].kind else ""
  }

  /** What persisting leaves for a key. */
  ghost function PersistedRow(was: Option<Finding>, drafts: seq<Draft>, key: string, commit: string): Option<Finding> {
    var last := LastDraft(drafts, key);
    if last.None? then was
    else
      match was
      case None => Some(Finding(KindOf(drafts, key), New, None, commit, commit, last.value.evidence, last.value.seconds))
      case Some(f) => Some(PersistOne(Some(f), last.value, commit))
  }

  /** The row an audit leaves for a key, read off its old row and the drafts, however often the key was drafted. */
  ghost function AuditedRow(was: Option<Finding>, repo: nat, id: Id, drafts: seq<Draft>, commit: string): Option<Finding> {
    if drafts == [] || id.repo != repo then was
    else if LastDraft(drafts, id.key).Some? then PersistedRow(was, drafts, id.key, commit)
    else if was.Some? && Open(was.value.status) then Some(was.value.(status := Resolved, lastSeen := commit))
    else was
  }

  lemma {:induction false} PersistInClosedForm(l: Ledger, repo: nat, drafts: seq<Draft>, commit: string, id: Id)
    ensures Lookup(PersistAll(l, repo, drafts, commit), id) ==
            if id.repo == repo then PersistedRow(Lookup(l, id), drafts, id.key, commit) else Lookup(l, id)
    decreases |drafts|
  {
    if drafts != [] {
      PersistInClosedForm(l, repo, drafts[..|drafts| - 1], commit, id);
    }
  }

  /** What counts as a regression does not depend on the drafts persisted before it in the same audit. */
  lemma ReturnsAsBefore(l: Ledger, repo: nat, front: seq<Draft>, d: Draft, commit: string)
    ensures var id, before := Id(repo, d.key), PersistAll(l, repo, front, commit);
            (id in before && PersistOne(Lookup(before, id), d, commit).status == Regressed) <==> CameBack(Lookup(l, id))
  {
    PersistInClosedForm(l, repo, front, commit, Id(repo, d.key));
    hide PersistAll;
  }

  /** Draft `k` is the last one with that key; draft `i` the first. */
  ghost predicate IsLastDraft(drafts: seq<Draft>, key: string, k: nat) {
    k < |drafts| && drafts[k].key == key && forall m | k < m < |drafts| :: drafts[m].key != key
  }

  ghost predicate IsFirstDraft(drafts: seq<Draft>, key: string, i: nat) {
    i < |drafts| && drafts[i].key == key && forall m | 0 <= m < i :: drafts[m].key != key
  }

  lemma {:induction false} LastDraftIs(drafts: seq<Draft>, key: string, k: nat)
    requires IsLastDraft(drafts, key, k)
    ensures LastDraft(drafts, key) == Some(drafts[k])
    decreases |drafts|
  {
    if k + 1 < |drafts| { LastDraftIs(drafts[..|drafts| - 1], key, k); }
  }

  lemma {:induction false} KindIsOfFirst(drafts: seq<Draft>, key: string, i: nat)
    requires IsFirstDraft(drafts, key, i)
    ensures KindOf(drafts, key) == drafts[i].kind && LastDraft(drafts, key).Some?
    decreases |drafts|
  {
    var front := drafts[..|drafts| - 1];
    if i + 1 < |drafts| {
      KindIsOfFirst(front, key, i);
    } else {
      LastDraftFinds(front, key);
    }
  }

  /** What an audit leaves of a drafted row, column by column: identity, first sight and silence are kept, evidence and
      saving are those of the last draft, and a resolved finding comes back as regressed. */
  lemma AuditLeaves(l: Ledger, repo: nat, drafts: seq<Draft>, commit: string, key: string, i: nat, k: nat)
    requires IsFirstDraft(drafts, key, i) && IsLastDraft(drafts, key, k)
    ensures var id, after := Id(repo, key), Audited(l, repo, drafts, commit);
            id in after &&
            after[id] == if id !in l then
                           Finding(drafts[i].kind, New, None, commit, commit, drafts[k].evidence, drafts[k].seconds)
                         else
                           Finding(l[id].kind, if l[id].status == Resolved then Regressed else l[id].status,
                                   l[id].silence, l[id].firstSeen, commit, drafts[k].evidence, drafts[k].seconds)
  {
    AuditInClosedForm(l, repo, drafts, commit, Id(repo, key));
    LastDraftIs(drafts, key, k);
    KindIsOfFirst(drafts, key, i);
    hide Audited;
  }

  /** And of any other row: open findings of the repository are resolved, everything else stays. */
  lemma AuditLeavesOthers(l: Ledger, repo: nat, drafts: seq<Draft>, commit: string, id: Id)
    requires id.repo != repo || forall k | 0 <= k < |drafts| :: drafts[k].key != id.key
    ensures var after := Audited(l, repo, drafts, commit);
            && (id in after <==> id in l)
            && (id in l ==>
                  after[id] == if drafts != [] && id.repo == repo && l[id].status in {New, Acknowledged, Regressed} then
                                 Finding(l[id].kind, Resolved, l[id].silence, l[id].firstSeen, commit, l[id].evidence,
                                         l[id].seconds)
                               else l[id])
  {
    AuditInClosedForm(l, repo, drafts, commit, id);
    LastDraftFinds(drafts, id.key);
    hide Audited;
  }

  lemma {:induction false} LastDraftFinds(drafts: seq<Draft>, key: string)
    ensures LastDraft(drafts, key).Some? <==> key in Keys(drafts)
    decreases |drafts|
  {
    if drafts != [] {
      LastDraftFinds(drafts[..|drafts| - 1], key);
      assert Keys(drafts) == Keys(drafts[..|drafts| - 1]) + {drafts[|drafts| - 1].key};
    }
  }

  lemma AuditInClosedForm(l: Ledger, repo: nat, drafts: seq<Draft>, commit: string, id: Id)
    ensures Lookup(Audited(l, repo, drafts, commit), id) == AuditedRow(Lookup(l, id), repo, id, drafts, commit)
  {
    PersistInClosedForm(l, repo, drafts, commit, id);
    LastDraftFinds(drafts, id.key);
    if drafts != [] {
      assert drafts[0].key in Keys(drafts);
      hide PersistAll;
    }
  }

  /** After an audit with drafts, the open findings of the repository are exactly the drafted, unsuppressed ones. */
  lemma OpenIsDrafted(l: Ledger, repo: nat, drafts: seq<Draft>, commit: string, key: string)
    requires drafts != []
    ensures var id, after := Id(repo, key), Audited(l, repo, drafts, commit);
            id in after && Open(after[id].status) <==>
              key in Keys(drafts) && !(id in l && l[id].status == Suppressed)
  {
    AuditInClosedForm(l, repo, drafts, commit, Id(repo, key));
    LastDraftFinds(drafts, key);
    hide Audited;
  }

  // ---------------------------------------------------------------- any sequence of operations

  datatype Op =
    | Audit(repo: nat, drafts: seq<Draft>, commit: string)
    | ApplyRules(repo: nat, rules: seq<Rule>, commit: string)
    | Suppress(id: Id, reason: string, scope: Scope, source: Source)
    | Unsuppress(id: Id)

  /** The committed effect of one call; a rejected transaction leaves the ledger alone. */
  function After(l: Ledger, op: Op): Ledger {
    match op
    case Audit(repo, drafts, commit) => Audited(l, repo, drafts, commit)
    case ApplyRules(repo, rules, commit) =>
      var applied := Applied(l, repo, rules, commit);
      if Blank(applied) then l else applied
    case Suppress(id, reason, scope, source) =>
      if Strip(reason) != "" && id in l then l[id := SuppressedRow(l[id], Silence(scope, Strip(reason), source))] else l
    case Unsuppress(id) => if id in l then l[id := UnsuppressedRow(l[id])] else l
  }

  ghost predicate Sound(l: Ledger) {
    forall id | id in l :: WellSilenced(l[id]) && l[id].evidence != []
  }

  /** A row's fate under one operation: rows never vanish, only `Unsuppress` of that row leaves `Suppressed`,
      and `Regressed` is entered only by an audit that drafts a `Resolved` key. */
  ghost predicate LawfulRow(l: Ledger, op: Op, id: Id, after: Ledger)
    requires id in l
  {
    && id in after
    && (l[id].status == Suppressed && after[id].status != Suppressed ==> op == Unsuppress(id) && after[id].status == New)
    && (after[id].status == Regressed && l[id].status != Regressed ==>
          op.Audit? && l[id].status == Resolved && id.repo == op.repo && id.key in Keys(op.drafts))
    && after[id].firstSeen == l[id].firstSeen && after[id].kind == l[id].kind
  }

  lemma StepIsLawful(l: Ledger, op: Op, id: Id)
    requires id in l
    ensures LawfulRow(l, op, id, After(l, op))
  {
    if op.Audit? {
      AuditInClosedForm(l, op.repo, op.drafts, op.commit, id);
      LastDraftFinds(op.drafts, id.key);
      hide Audited;
    }
  }

  lemma NewRowsAreNew(l: Ledger, op: Op, id: Id)
    requires id !in l && id in After(l, op)
    ensures After(l, op)[id].status == New && op.Audit?
  {
    if op.Audit? {
      AuditInClosedForm(l, op.repo, op.drafts, op.commit, id);
      hide Audited;
    }
  }

  /** No finding without evidence, no silence without a reason: kept by every operation. */
  lemma SoundHolds(l: Ledger, op: Op)
    requires Sound(l)
    ensures Sound(After(l, op))
  {
    var after := After(l, op);
    forall id | id in after ensures WellSilenced(after[id]) && after[id].evidence != [] {
      if op.Audit? {
        AuditInClosedForm(l, op.repo, op.drafts, op.commit, id);
      } else if op.Suppress? {
        StripStarts(op.reason);
        assert Strip(op.reason) != "" ==> Strip(op.reason)[0] != ' ';
      }
    }
  }

  ghost predicate IsHistory(ledgers: seq<Ledger>, ops: seq<Op>) {
    && |ledgers| == |ops| + 1 && Sound(ledgers[0])
    && forall i | 0 <= i < |ops| :: ledgers[i + 1] == After(ledgers[i], ops[i])
  }

  /** A suppression stands through any number of audits and rules until that very finding is un-suppressed. */
  lemma {:induction false} SuppressionStands(ledgers: seq<Ledger>, ops: seq<Op>, i: nat, j: nat, id: Id)
    requires IsHistory(ledgers, ops) && i <= j < |ledgers|
    requires id in ledgers[i] && ledgers[i][id].status == Suppressed
    requires forall k | i <= k < j :: ops[k] != Unsuppress(id)
    ensures id in ledgers[j] && ledgers[j][id].status == Suppressed
    decreases j
  {
    if i < j {
      SuppressionStands(ledgers, ops, i, j - 1, id);
      StepIsLawful(ledgers[j - 1], ops[j - 1], id);
    }
  }

  lemma {:induction false} HistoryIsSound(ledgers: seq<Ledger>, ops: seq<Op>, i: nat)
    requires IsHistory(ledgers, ops) && i < |ledgers|
    ensures Sound(ledgers[i])
  {
    if i > 0 {
      HistoryIsSound(ledgers, ops, i - 1);
      SoundHolds(ledgers[i - 1], ops[i - 1]);
    }
  }

  /** Whoever is `Regressed` was once `Resolved` and has been drafted again since. */
  lemma {:induction false} RegressedWasResolved(ledgers: seq<Ledger>, ops: seq<Op>, j: nat, id: Id) returns (i: nat)
    requires IsHistory(ledgers, ops) && j < |ledgers| && ledgers[0] == map[]
    requires id in ledgers[j] && ledgers[j][id].status == Regressed
    ensures i < j && id in ledgers[i] && ledgers[i][id].status == Resolved
    ensures ops[i].Audit? && id.repo == ops[i].repo && id.key in Keys(ops[i].drafts)
    decreases j
  {
    i := 0;
    if id in ledgers[j - 1] {
      StepIsLawful(ledgers[j - 1], ops[j - 1], id);
      if ledgers[j - 1][id].status == Regressed {
        i := RegressedWasResolved(ledgers, ops, j - 1, id);
      } else {
        i := j - 1;
      }
    } else {
      NewRowsAreNew(ledgers[j - 1], ops[j - 1], id);
    }
  }

  // ---------------------------------------------------------------- what a rule silences

  predicate AtSlot(parts: seq<string>, slot: nat, value: string) { slot < |parts| && parts[slot] == value }

  /** The test suppress.py:67-69 describes: on keys `rule:path:job`, each part a rule names stands in its own slot. */
  predicate Documented(r: Rule, kind: string, key: string) {
    var parts := SplitOn(key, ':');
    && kind == r.rule
    && (r.path.Some? ==> AtSlot(parts, 1, r.path.value))
    && (r.job.Some? ==> AtSlot(parts, 2, r.job.value))
  }

  function Named(r: Rule): seq<string> {
    [r.rule] + (if r.path.Some? then [r.path.value] else []) + (if r.job.Some? then [r.job.value] else [])
  }

  /** On keys that begin with their kind, and for rules that leave no gap, that is a prefix test. */
  lemma DocumentedIsPrefix(r: Rule, kind: string, key: string)
    requires SplitOn(key, ':')[0] == kind && (r.job.Some? ==> r.path.Some?)
    ensures Documented(r, kind, key) <==> Named(r) <= SplitOn(key, ':')
  {
    var named, parts := Named(r), SplitOn(key, ':');
    assert named <= parts <==> |named| <= |parts| && forall i | 0 <= i < |named| :: named[i] == parts[i];
    assert named[0] == r.rule && (r.path.Some? ==> named[1] == r.path.value) && (r.job.Some? ==> named[2] == r.job.value);
  }

  /** Where a value stands among the parts of a key. */
  ghost function Slots(key: string, value: string): set<nat> {
    var parts := SplitOn(key, ':');
    set i: nat | i < |parts| && parts[i] == value
  }

  lemma SlotsAreOccurrences(key: string, value: string)
    ensures Slots(key, value) != {} <==> value in SplitOn(key, ':')
    ensures forall slot: nat :: slot in Slots(key, value) <==> AtSlot(SplitOn(key, ':'), slot, value)
  {
    var parts := SplitOn(key, ':');
    if value in parts {
      var i :| 0 <= i < |parts| && parts[i] == value;
      assert i in Slots(key, value);
    }
  }

  /** The code silences whatever the documentation does, and more exactly when a named part stands in some slot but
      not in its own, or when a job is named without a path and does not stand in its slot. */
  lemma SilencesMoreExactly(r: Rule, kind: string, key: string)
    ensures Documented(r, kind, key) ==> r.Matches(kind, key)
    ensures r.Matches(kind, key) && !Documented(r, kind, key) <==>
              kind == r.rule &&
              match (r.path, r.job)
              case (None, None) => false
              case (None, Some(job)) => 2 !in Slots(key, job)
              case (Some(path), None) => Slots(key, path) != {} && 1 !in Slots(key, path)
              case (Some(path), Some(job)) =>
                && Slots(key, path) != {} && Slots(key, job) != {}
                && (1 !in Slots(key, path) || 2 !in Slots(key, job))
  {
    if r.path.Some? { SlotsAreOccurrences(key, r.path.value); }
    if r.job.Some? { SlotsAreOccurrences(key, r.job.value); }
    hide Slots;
  }

  lemma {:induction false} SplitBuiltKey(parts: seq<string>)
    requires parts != [] && forall p | p in parts :: ':' !in p
    ensures SplitOn(Join(parts, ":"), ':') == parts
    decreases |parts|
  {
    if |parts| == 1 {
      SplitHead(parts[0], "", ':');
    } else {
      SplitBuiltKey(parts[1..]);
      SplitHead(parts[0], Join(parts[1..], ":"), ':');
      assert parts == [parts[0]] + parts[1..];
    }
  }

  /** On a key built from any number of parts a rule tests membership; a job without a path narrows nothing,
      although the scope it reports is a single finding. */
  lemma RuleMatchesParts(r: Rule, kind: string, parts: seq<string>)
    requires parts != [] && forall p | p in parts :: ':' !in p
    ensures r.path.Some? ==>
              (r.Matches(kind, Join(parts, ":")) <==>
                 kind == r.rule && r.path.value in parts && (r.job.None? || r.job.value in parts))
    ensures r.path.None? ==> (r.Matches(kind, Join(parts, ":")) <==> kind == r.rule)
    ensures r.path.None? && r.job.Some? && r.job.value != "" ==> r.EffectiveScope() == OneFinding
  {
    SplitBuiltKey(parts);
  }

  function CacheKey(): seq<string> { ["no_dependency_cache", "ci.yml", "build"] }

  lemma CacheKeySplits()
    ensures SplitOn(Join(CacheKey(), ":"), ':') == CacheKey()
  {
    SplitBuiltKey(CacheKey());
  }

  /** A job's name given as a path silences that job in every workflow; a job given without a path silences others. */
  lemma SilencesTooMuch()
    ensures var key, kind := Join(CacheKey(), ":"), "no_dependency_cache";
            var byPath := Rule(kind, "slow mirror", Cli, Some("build"), None);
            var byJob := Rule(kind, "slow mirror", Cli, None, Some("lint"));
            && byPath.Matches(kind, key) && !Documented(byPath, kind, key)
            && byJob.Matches(kind, key) && !Documented(byJob, kind, key)
  {
    CacheKeySplits();
    hide SplitOn, Join;
    assert CacheKey()[2] == "build";
  }

  /** Keys of `long_tail_step` name a job and a step, so a rule with a workflow path never reaches them, although
      suppress.py:91 gives one as an example. */
  lemma PathNeverReachesLongTail(r: Rule, job: string, step: string)
    requires ':' !in job && ':' !in step && r.path.Some? && r.path.value !in ["long_tail_step", job, step]
    ensures !r.Matches("long_tail_step", Join(["long_tail_step", job, step], ":"))
  {
    RuleMatchesParts(r, "long_tail_step", ["long_tail_step", job, step]);
  }

  /** Keys of `no_run_cancellation` end with the path, so a rule that also names a job never reaches them, although
      suppress.py:92 gives one as an example. */
  lemma JobNeverReachesCancellation(r: Rule, path: string)
    requires ':' !in path && r.path.Some? && r.job.Some? && r.job.value !in ["no_run_cancellation", path]
    ensures !r.Matches("no_run_cancellation", Join(["no_run_cancellation", path], ":"))
  {
    RuleMatchesParts(r, "no_run_cancellation", ["no_run_cancellation", path]);
  }
}
