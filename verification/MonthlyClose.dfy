/**
 The monthly close of accounting (backend/src/apps/kernels/accounting/certification_phase12.py):
 the gate that decides whether a cycle passed, and the canonical manifest whose hash certifies it.
 What the subsystems answer (posting, revaluation, intercompany, consolidation, health) is input.
 */
module MonthlyClose {
  import opened Basics
  import opened StableSort
  import opened LexOrder

  datatype Policy = ALERT | BLOCK

  datatype Warning = Warning(code: string, severity: string, message: string)

  datatype Check = Check(name: string, passed: bool, detail: string)

  datatype Posting = Posting(attempted: int, approved: int, posted: int, skipped: int, failed: int)

  datatype Revaluation = Revaluation(runId: string, status: string, idempotent: bool, entriesCreated: int, issuesCount: int)

  datatype Row = Row(company: int, processed: int, confirmed: int, differences: int, disputed: int, closed: int,
                     openItems: int, reportHash: string)

  /** What the intercompany cycle of one company answers. */
  datatype Cycle = Cycle(processed: int, confirmed: int, differences: int, disputed: int, closed: int, openItems: int,
                         reportHash: string)

  function RowOf(company: int, c: Cycle): Row {
    Row(company, c.processed, c.confirmed, c.differences, c.disputed, c.closed, c.openItems, c.reportHash)
  }

  datatype Consolidation = Consolidation(runId: string, status: string, idempotent: bool, manifestHash: string, issuesCount: int)

  datatype Health = Health(inboxFailed: int, outboxFailed: int, missingLines: int, staleRevaluation: int,
                           unbalancedEntries: int, openIntercompany: int, disputedIntercompany: int,
                           blockedConsolidation: int, openConsolidationException: int)

  datatype Thresholds = Thresholds(inboxFailed: int, outboxFailed: int, missingLines: int, staleRevaluation: int,
                                   openIntercompany: int, disputedIntercompany: int, blockedConsolidation: int,
                                   openConsolidationException: int)

  datatype Report = Report(
    generatedAt: string, periodKey: string, scopeHash: string, policy: Policy, cyclePassed: bool, riskLevel: string,
    posting: Posting, revaluation: Revaluation, fxBlockedWarning: bool, intercompany: seq<Row>,
    consolidation: Consolidation, health: Health, checks: seq<Check>, warnings: seq<Warning>)

  // ---------------------------------------------------------------- the scope

  predicate IntLe(a: int, b: int) { a <= b }

  function Distinct(ids: seq<int>): seq<int> {
    if ids == [] then []
    else (if ids[0] in ids[1..] then [] else [ids[0]]) + Distinct(ids[1..])
  }

  /** `sorted({int(x) for x in company_ids})`, the input of the scope hash. */
  function ScopeIds(ids: seq<int>): seq<int> {
    Sort(IntLe, Distinct(ids))
  }

  lemma {:induction false} DistinctSpec(ids: seq<int>)
    ensures forall x :: x in Distinct(ids) <==> x in ids
    ensures forall i, j :: 0 <= i < j < |Distinct(ids)| ==> Distinct(ids)[i] != Distinct(ids)[j]
  {
    if ids != [] {
      DistinctSpec(ids[1..]);
      assert ids == [ids[0]] + ids[1..];
    }
  }

  /** The scope hash sees the set of companies: order and repetition do not matter, anything else does. */
  lemma {:induction false} ScopeIsASet(a: seq<int>, b: seq<int>)
    ensures ScopeIds(a) == ScopeIds(b) <==> (forall x :: x in a <==> x in b)
  {
    DistinctSpec(a);
    DistinctSpec(b);
    SortSorts(IntLe, Distinct(a));
    SortSorts(IntLe, Distinct(b));
    if forall x :: x in a <==> x in b {
      SameMembersSameMultiset(Distinct(a), Distinct(b));
      SortIgnoresOrder(IntLe, Distinct(a), Distinct(b));
    } else {
      var x :| !(x in a <==> x in b);
      assert x in ScopeIds(a) <==> x in a;
      assert x in ScopeIds(b) <==> x in b;
    }
  }

  // ---------------------------------------------------------------- the gate

  datatype Answers = Answers(
    posting: Posting, revaluation: Option<Revaluation>, cycles: map<int, Cycle>, consolidation: Option<Consolidation>,
    health: Health)

  function RevaluationOf(a: Answers): Revaluation {
    match a.revaluation
    case Some(r) => r
    case None => Revaluation("", "FAILED", false, 0, 1)
  }

  function ConsolidationOf(a: Answers): Consolidation {
    match a.consolidation
    case Some(c) => c
    case None => Consolidation("", "FAILED", false, "", 1)
  }

  predicate FxPassed(status: string, policy: Policy) {
    status == "COMPLETED" || (status == "BLOCKED" && policy == ALERT)
  }

  /** The checks of a cycle whose intercompany runs raised `errors` exceptions. */
  function Checks(a: Answers, errors: nat, t: Thresholds, policy: Policy): seq<Check> {
    var h := a.health;
    var consolidation := ConsolidationOf(a);
    [ Check("fx_revaluation_policy", FxPassed(RevaluationOf(a).status, policy), ""),
      Check("inbox_failed_within_threshold", h.inboxFailed <= t.inboxFailed, ""),
      Check("outbox_failed_within_threshold", h.outboxFailed <= t.outboxFailed, ""),
      Check("missing_lines_within_threshold", h.missingLines <= t.missingLines, ""),
      Check("stale_revaluation_within_threshold", h.staleRevaluation <= t.staleRevaluation, ""),
      Check("open_intercompany_within_threshold", h.openIntercompany <= t.openIntercompany, ""),
      Check("disputed_intercompany_within_threshold", h.disputedIntercompany <= t.disputedIntercompany, ""),
      Check("blocked_consolidation_within_threshold", h.blockedConsolidation <= t.blockedConsolidation, ""),
      Check("open_consolidation_exception_within_threshold",
            h.openConsolidationException <= t.openConsolidationException, ""),
      Check("intercompany_cycle_errors_empty", errors == 0, ""),
      Check("consolidation_not_failed",
            a.consolidation.Some? && consolidation.status in {"COMPLETED", "BLOCKED"}, ""),
      Check("posting_without_failures", a.posting.failed == 0, "") ]
  }

  predicate AllPassed(checks: seq<Check>) {
    forall i :: 0 <= i < |checks| ==> checks[i].passed
  }

  function RiskLevel(cyclePassed: bool, warnings: seq<Warning>): string {
    if !cyclePassed then "HIGH" else if warnings != [] then "MEDIUM" else "LOW"
  }

  /** The companies of the scope whose intercompany cycle raised. */
  function Raised(a: Answers, scope: seq<int>): nat {
    if scope == [] then 0 else Raised(a, scope[..|scope| - 1]) + (if scope[|scope| - 1] in a.cycles then 0 else 1)
  }

  /** The rows of the companies whose intercompany cycle answered. */
  function Answered(a: Answers, scope: seq<int>): seq<Row> {
    if scope == [] then []
    else
      var last := scope[|scope| - 1];
      Answered(a, scope[..|scope| - 1]) + (if last in a.cycles then [RowOf(last, a.cycles[last])] else [])
  }

  lemma {:induction false} AnsweredSpec(a: Answers, scope: seq<int>)
    ensures forall c :: c in scope && c in a.cycles ==> RowOf(c, a.cycles[c]) in Answered(a, scope)
    ensures forall r :: r in Answered(a, scope) ==> exists c :: c in scope && c in a.cycles && r == RowOf(c, a.cycles[c])
  {
    if scope != [] {
      var n := |scope| - 1;
      assert scope == scope[..n] + [scope[n]];
      AnsweredSpec(a, scope[..n]);
      forall r | r in Answered(a, scope)
        ensures exists c :: c in scope && c in a.cycles && r == RowOf(c, a.cycles[c])
      {
        if r in Answered(a, scope[..n]) {
          var c :| c in scope[..n] && c in a.cycles && r == RowOf(c, a.cycles[c]);
          assert c in scope;
        } else {
          assert scope[n] in scope && r == RowOf(scope[n], a.cycles[scope[n]]);
        }
      }
    }
  }

  ghost predicate DistinctCompanies(rows: seq<Row>) {
    forall i, j :: 0 <= i < j < |rows| ==> rows[i].company != rows[j].company
  }

  lemma {:induction false} AnsweredDistinct(a: Answers, scope: seq<int>)
    requires forall i, j :: 0 <= i < j < |scope| ==> scope[i] != scope[j]
    ensures DistinctCompanies(Answered(a, scope))
  {
    if scope != [] {
      var n := |scope| - 1;
      AnsweredDistinct(a, scope[..n]);
      AnsweredSpec(a, scope[..n]);
      var before := Answered(a, scope[..n]);
      forall i | 0 <= i < |before|
        ensures before[i].company != scope[n]
      {
        assert before[i] in before;
        var c :| c in scope[..n] && c in a.cycles && before[i] == RowOf(c, a.cycles[c]);
        var k :| 0 <= k < n && scope[k] == c;
      }
      if scope[n] in a.cycles {
        assert Answered(a, scope) == before + [RowOf(scope[n], a.cycles[scope[n]])];
      } else {
        assert Answered(a, scope) == before;
      }
    }
  }

  lemma {:induction false} ScopeDistinct(ids: seq<int>)
    ensures forall i, j :: 0 <= i < j < |ScopeIds(ids)| ==> ScopeIds(ids)[i] != ScopeIds(ids)[j]
  {
    DistinctSpec(ids);
    SortSorts(IntLe, Distinct(ids));
    PermutationKeepsDistinct(Distinct(ids), ScopeIds(ids));
  }

  const FX_WARNING: Warning :=
    Warning("FX_REVALUATION_BLOCKED", "WARN", "Revaluación FX bloqueada; permitida por política ALERT.")

  /** What identifies a close: the period, the company, its parent and the companies given, and the
      hash function of the scope. */
  datatype Request = Request(periodKey: string, company: int, parent: int, companies: seq<int>,
                             hash: (int, int, seq<int>) -> string)

  function Scope(q: Request): seq<int> {
    ScopeIds([q.company] + q.companies)
  }

  /** `_scope_hash`, which sorts the scope once more. */
  function ScopeHash(q: Request): string {
    (q.hash)(q.company, q.parent, ScopeIds(Scope(q)))
  }

  /** The report of a close. */
  function ReportOf(generatedAt: string, q: Request, a: Answers, t: Thresholds, policy: Policy): Report {
    var scope := Scope(q);
    var blocked := RevaluationOf(a).status == "BLOCKED";
    var warnings := if blocked then [FX_WARNING] else [];
    var checks := Checks(a, Raised(a, scope), t, policy);
    Report(generatedAt, q.periodKey, ScopeHash(q), policy, AllPassed(checks), RiskLevel(AllPassed(checks), warnings), a.posting,
           RevaluationOf(a), blocked, Answered(a, scope), ConsolidationOf(a), a.health, checks, warnings)
  }

  /** What a row reports of the cycle of a company. */
  predicate IsRowOf(r: Row, company: int, c: Cycle) {
    && r.company == company && r.processed == c.processed && r.confirmed == c.confirmed
    && r.differences == c.differences && r.disputed == c.disputed && r.closed == c.closed
    && r.openItems == c.openItems && r.reportHash == c.reportHash
  }

  lemma {:induction false} AnsweredRows(a: Answers, scope: seq<int>)
    ensures forall c :: c in scope && c in a.cycles ==> exists r :: r in Answered(a, scope) && IsRowOf(r, c, a.cycles[c])
    ensures forall r :: r in Answered(a, scope) ==>
              r.company in scope && r.company in a.cycles && IsRowOf(r, r.company, a.cycles[r.company])
  {
    AnsweredSpec(a, scope);
    forall c | c in scope && c in a.cycles
      ensures exists r :: r in Answered(a, scope) && IsRowOf(r, c, a.cycles[c])
    {
      assert IsRowOf(RowOf(c, a.cycles[c]), c, a.cycles[c]);
    }
  }

  /** The companies of a close, ascending and without repetition. */
  lemma {:induction false} ScopeAscending(ids: seq<int>)
    ensures forall i, j :: 0 <= i < j < |ScopeIds(ids)| ==> ScopeIds(ids)[i] < ScopeIds(ids)[j]
  {
    ScopeDistinct(ids);
    SortSorts(IntLe, Distinct(ids));
    forall i, j | 0 <= i < j < |ScopeIds(ids)|
      ensures ScopeIds(ids)[i] < ScopeIds(ids)[j]
    {
      assert IntLe(ScopeIds(ids)[i], ScopeIds(ids)[j]);
    }
  }

  lemma {:induction false} AnsweredAscending(a: Answers, scope: seq<int>)
    requires forall i, j :: 0 <= i < j < |scope| ==> scope[i] < scope[j]
    ensures forall i, j :: 0 <= i < j < |Answered(a, scope)| ==> Answered(a, scope)[i].company < Answered(a, scope)[j].company
  {
    if scope != [] {
      var n := |scope| - 1;
      AnsweredAscending(a, scope[..n]);
      AnsweredSpec(a, scope[..n]);
      var before := Answered(a, scope[..n]);
      forall i | 0 <= i < |before|
        ensures before[i].company < scope[n]
      {
        assert before[i] in before;
      }
    }
  }

  /** What a report says of the answers. */
  ghost predicate ReportsAnswers(report: Report, a: Answers, policy: Policy) {
    && (var blocked := a.revaluation.Some? && a.revaluation.value.status == "BLOCKED";
        && report.fxBlockedWarning == blocked
        && report.riskLevel == (if !report.cyclePassed then "HIGH" else if blocked then "MEDIUM" else "LOW")
        && (if blocked
            then report.warnings == [Warning("FX_REVALUATION_BLOCKED", "WARN",
                                             "Revaluación FX bloqueada; permitida por política ALERT.")]
            else report.warnings == []))
    && (a.revaluation.Some? ==> report.revaluation == a.revaluation.value)
    && (a.revaluation == None ==>
          && report.revaluation.status == "FAILED" && report.revaluation.issuesCount == 1
          && report.revaluation.runId == "" && report.revaluation.entriesCreated == 0 && !report.revaluation.idempotent)
    && (a.consolidation.Some? ==> report.consolidation == a.consolidation.value)
    && (a.consolidation == None ==>
          && report.consolidation.status == "FAILED" && report.consolidation.issuesCount == 1
          && report.consolidation.runId == "" && report.consolidation.manifestHash == "" && !report.consolidation.idempotent)
    && report.posting == a.posting && report.health == a.health && report.policy == policy
  }

  lemma {:induction false} ReportOfAnswers(generatedAt: string, q: Request, a: Answers, t: Thresholds, policy: Policy)
    ensures ReportsAnswers(ReportOf(generatedAt, q, a, t, policy), a, policy)
  {
    hide Checks, ScopeIds, AllPassed, Answered, Raised;
  }

  /** `run_phase12_monthly_close`: the gate passes exactly when every subsystem met its condition;
      under BLOCK a passed cycle is of LOW risk. */
  method RunMonthlyClose(generatedAt: string, q: Request, a: Answers, t: Thresholds, policy: Policy)
    returns (report: Report)
    ensures report == ReportOf(generatedAt, q, a, t, policy)
    ensures report.cyclePassed <==> Passes(a, Scope(q), t, policy)
    ensures ReportsAnswers(report, a, policy)
    ensures report.cyclePassed && policy == BLOCK ==> report.riskLevel == "LOW"
    ensures forall c :: (c == q.company || c in q.companies) && c in a.cycles ==>
              exists r :: r in report.intercompany && IsRowOf(r, c, a.cycles[c])
    ensures forall r :: r in report.intercompany ==>
              && (r.company == q.company || r.company in q.companies) && r.company in a.cycles
              && IsRowOf(r, r.company, a.cycles[r.company])
    ensures forall i, j :: 0 <= i < j < |report.intercompany| ==>
              report.intercompany[i].company < report.intercompany[j].company
    ensures forall i, j :: 0 <= i < j < |report.checks| ==> report.checks[i].name != report.checks[j].name
  {
    hide Checks, Passes, ScopeIds, AllPassed, ReportsAnswers;
    var scope := ScopeIds([q.company] + q.companies);
    var warnings: seq<Warning> := [];
    var revaluation := RevaluationOf(a);
    var fxBlockedWarning := false;
    if revaluation.status == "BLOCKED" {
      fxBlockedWarning := true;
      warnings := warnings + [FX_WARNING];
    }
    var rows: seq<Row> := [];
    var errors: nat := 0;
    var i := 0;
    while i < |scope|
      invariant 0 <= i <= |scope|
      invariant errors == Raised(a, scope[..i])
      invariant rows == Answered(a, scope[..i])
    {
      assert scope[..i + 1][..i] == scope[..i];
      if scope[i] in a.cycles {
        rows := rows + [RowOf(scope[i], a.cycles[scope[i]])];
      } else {
        errors := errors + 1;
      }
      i := i + 1;
    }
    assert scope[..i] == scope;
    ScopeMembers([q.company] + q.companies);
    AnsweredSpec(a, scope);
    AnsweredRows(a, scope);
    ScopeAscending([q.company] + q.companies);
    AnsweredAscending(a, scope);
    CheckNamesDiffer(a, errors, t, policy);
    var checks := Checks(a, errors, t, policy);
    var cyclePassed := AllPassed(checks);
    PassesSpec(a, scope, t, policy);
    GateIsMonotone(a, scope, t, t, policy, policy);
    report := Report(generatedAt, q.periodKey, (q.hash)(q.company, q.parent, ScopeIds(scope)), policy, cyclePassed, RiskLevel(cyclePassed, warnings), a.posting,
                     revaluation, fxBlockedWarning, rows, ConsolidationOf(a), a.health, checks, warnings);
    ReportOfAnswers(generatedAt, q, a, t, policy);
  }

  lemma {:induction false} ScopeMembers(ids: seq<int>)
    ensures forall x :: x in ScopeIds(ids) <==> x in ids
  {
    DistinctSpec(ids);
    SortSorts(IntLe, Distinct(ids));
  }

  /** The gate in one sentence. */
  ghost predicate Passes(a: Answers, scope: seq<int>, t: Thresholds, policy: Policy) {
    && a.revaluation.Some?
    && (a.revaluation.value.status == "COMPLETED" || (a.revaluation.value.status == "BLOCKED" && policy == ALERT))
    && a.health.inboxFailed <= t.inboxFailed && a.health.outboxFailed <= t.outboxFailed
    && a.health.missingLines <= t.missingLines && a.health.staleRevaluation <= t.staleRevaluation
    && a.health.openIntercompany <= t.openIntercompany && a.health.disputedIntercompany <= t.disputedIntercompany
    && a.health.blockedConsolidation <= t.blockedConsolidation
    && a.health.openConsolidationException <= t.openConsolidationException
    && (forall c :: c in scope ==> c in a.cycles)
    && a.consolidation.Some? && a.consolidation.value.status in {"COMPLETED", "BLOCKED"}
    && a.posting.failed == 0
  }

  lemma {:induction false} RaisedSpec(a: Answers, scope: seq<int>)
    ensures Raised(a, scope) == 0 <==> forall c :: c in scope ==> c in a.cycles
  {
    if scope != [] {
      var n := |scope| - 1;
      assert forall c :: c in scope <==> c in scope[..n] || c == scope[n] by {
        assert scope == scope[..n] + [scope[n]];
      }
      RaisedSpec(a, scope[..n]);
    }
  }

  lemma {:induction false} PassesSpec(a: Answers, scope: seq<int>, t: Thresholds, policy: Policy)
    ensures AllPassed(Checks(a, Raised(a, scope), t, policy)) <==> Passes(a, scope, t, policy)
  {
    RaisedSpec(a, scope);
    var cs := Checks(a, Raised(a, scope), t, policy);
    assert AllPassed(cs) ==> cs[0].passed && cs[1].passed && cs[2].passed && cs[3].passed && cs[4].passed && cs[5].passed;
    assert AllPassed(cs) ==> cs[6].passed && cs[7].passed && cs[8].passed && cs[9].passed && cs[10].passed && cs[11].passed;
  }

  predicate AtLeastAs(t: Thresholds, u: Thresholds) {
    && t.inboxFailed <= u.inboxFailed && t.outboxFailed <= u.outboxFailed && t.missingLines <= u.missingLines
    && t.staleRevaluation <= u.staleRevaluation && t.openIntercompany <= u.openIntercompany
    && t.disputedIntercompany <= u.disputedIntercompany && t.blockedConsolidation <= u.blockedConsolidation
    && t.openConsolidationException <= u.openConsolidationException
  }

  /** Raising thresholds or relaxing BLOCK to ALERT never fails a cycle that passed; under BLOCK
      a passed cycle has no warning, so its risk is LOW. */
  lemma {:induction false} GateIsMonotone(a: Answers, scope: seq<int>, t: Thresholds, u: Thresholds, p: Policy, p': Policy)
    requires AtLeastAs(t, u) && (p' == p || p' == ALERT)
    ensures AllPassed(Checks(a, Raised(a, scope), t, p)) ==> AllPassed(Checks(a, Raised(a, scope), u, p'))
    ensures p == BLOCK && AllPassed(Checks(a, Raised(a, scope), t, p)) ==>
              a.revaluation.Some? && a.revaluation.value.status == "COMPLETED"
  {
    PassesSpec(a, scope, t, p);
    PassesSpec(a, scope, u, p');
  }

  // ---------------------------------------------------------------- the canonical manifest

  datatype WarningSignature = WarningSignature(code: string, severity: string)

  datatype CheckSignature = CheckSignature(name: string, passed: bool)

  datatype RowSignature = RowSignature(company: int, processed: int, confirmed: int, differences: int, disputed: int,
                                       closed: int, openItems: int)

  datatype Manifest = Manifest(
    periodKey: string, scopeHash: string, policy: Policy, cyclePassed: bool, riskLevel: string,
    warnings: seq<WarningSignature>, postingFailed: int, revaluationStatus: string, revaluationIssues: int,
    fxBlockedWarning: bool, intercompany: seq<RowSignature>, consolidationStatus: string,
    consolidationHash: string, consolidationIssues: int, health: Health, checks: seq<CheckSignature>)

  function OrDefault(s: string, d: string): string {
    if s == "" then d else s
  }

  function SignWarning(w: Warning): WarningSignature {
    WarningSignature(w.code, OrDefault(w.severity, "WARN"))
  }

  function SignCheck(c: Check): CheckSignature {
    CheckSignature(c.name, c.passed)
  }

  function SignRow(r: Row): RowSignature {
    RowSignature(r.company, r.processed, r.confirmed, r.differences, r.disputed, r.closed, r.openItems)
  }

  function Map<T, U>(f: T -> U, s: seq<T>): seq<U> {
    if s == [] then [] else [f(s[0])] + Map(f, s[1..])
  }

  predicate WarningFirst(a: WarningSignature, b: WarningSignature) {
    if a.code == b.code then StringLe(a.severity, b.severity) else StringLe(a.code, b.code)
  }

  predicate NameFirst(a: CheckSignature, b: CheckSignature) { StringLe(a.name, b.name) }

  predicate CompanyFirst(a: RowSignature, b: RowSignature) { a.company <= b.company }

  /** `_canonical_manifest`. */
  function CanonicalManifest(r: Report): Manifest {
    Manifest(
      r.periodKey, r.scopeHash, r.policy, r.cyclePassed, OrDefault(r.riskLevel, "HIGH"),
      Sort(WarningFirst, Map(SignWarning, r.warnings)),
      r.posting.failed, r.revaluation.status, r.revaluation.issuesCount, r.fxBlockedWarning,
      Sort(CompanyFirst, Map(SignRow, r.intercompany)),
      r.consolidation.status, r.consolidation.manifestHash, r.consolidation.issuesCount, r.health,
      Sort(NameFirst, Map(SignCheck, r.checks)))
  }

  /** Everything the manifest is meant to certify, with no order: run ids, times, details and the
      number of entries posted are absent. */
  ghost predicate SameFacts(r: Report, s: Report) {
    && r.periodKey == s.periodKey && r.scopeHash == s.scopeHash && r.policy == s.policy
    && r.cyclePassed == s.cyclePassed && OrDefault(r.riskLevel, "HIGH") == OrDefault(s.riskLevel, "HIGH")
    && r.posting.failed == s.posting.failed
    && r.revaluation.status == s.revaluation.status && r.revaluation.issuesCount == s.revaluation.issuesCount
    && r.fxBlockedWarning == s.fxBlockedWarning
    && r.consolidation.status == s.consolidation.status
    && r.consolidation.manifestHash == s.consolidation.manifestHash
    && r.consolidation.issuesCount == s.consolidation.issuesCount && r.health == s.health
    && multiset(Map(SignWarning, r.warnings)) == multiset(Map(SignWarning, s.warnings))
    && multiset(Map(SignRow, r.intercompany)) == multiset(Map(SignRow, s.intercompany))
    && multiset(Map(SignCheck, r.checks)) == multiset(Map(SignCheck, s.checks))
  }

  /** Rows of different companies and checks of different names. */
  ghost predicate DistinctParts(r: Report) {
    && DistinctCompanies(r.intercompany)
    && (forall i, j :: 0 <= i < j < |r.checks| ==> r.checks[i].name != r.checks[j].name)
  }

  lemma {:induction false} SignatureOrders()
    ensures TotalPreorder(WarningFirst) && TotalPreorder(NameFirst) && TotalPreorder(CompanyFirst)
    ensures forall s :: Separates(WarningFirst, s)
  {
    forall x: WarningSignature, y: WarningSignature, z: WarningSignature
      ensures WarningFirst(x, y) || WarningFirst(y, x)
      ensures WarningFirst(x, y) && WarningFirst(y, z) ==> WarningFirst(x, z)
      ensures WarningFirst(x, y) && WarningFirst(y, x) ==> x == y
    {
      StringLeIsTotalOrder(x.code, y.code, z.code);
      StringLeIsTotalOrder(y.code, z.code, x.code);
      StringLeIsTotalOrder(z.code, x.code, y.code);
      StringLeIsTotalOrder(x.severity, y.severity, z.severity);
    }
    forall x: CheckSignature, y: CheckSignature, z: CheckSignature
      ensures NameFirst(x, y) || NameFirst(y, x)
      ensures NameFirst(x, y) && NameFirst(y, z) ==> NameFirst(x, z)
    {
      StringLeIsTotalOrder(x.name, y.name, z.name);
    }
  }

  lemma {:induction false} MapAt<T, U>(f: T -> U, s: seq<T>)
    ensures |Map(f, s)| == |s| && forall i :: 0 <= i < |s| ==> Map(f, s)[i] == f(s[i])
  {
    if s != [] {
      MapAt(f, s[1..]);
    }
  }

  lemma {:induction false} PartsSeparate(r: Report)
    requires DistinctParts(r)
    ensures Separates(CompanyFirst, Map(SignRow, r.intercompany))
    ensures Separates(NameFirst, Map(SignCheck, r.checks))
  {
    MapAt(SignRow, r.intercompany);
    MapAt(SignCheck, r.checks);
    forall x, y | x in Map(SignCheck, r.checks) && y in Map(SignCheck, r.checks) && NameFirst(x, y) && NameFirst(y, x)
      ensures x == y
    {
      StringLeIsTotalOrder(x.name, y.name, "");
    }
  }

  /** Two reports have the same canonical manifest exactly when they state the same facts:
      the order of warnings, rows and checks is immaterial, and nothing else is lost. */
  lemma {:induction false} ManifestIsCanonical(r: Report, s: Report)
    requires DistinctParts(r) && DistinctParts(s)
    ensures CanonicalManifest(r) == CanonicalManifest(s) <==> SameFacts(r, s)
  {
    hide Map, Sort, OrDefault;
    SignatureOrders();
    PartsSeparate(r);
    SameSorted(WarningFirst, Map(SignWarning, r.warnings), Map(SignWarning, s.warnings));
    SameSorted(CompanyFirst, Map(SignRow, r.intercompany), Map(SignRow, s.intercompany));
    SameSorted(NameFirst, Map(SignCheck, r.checks), Map(SignCheck, s.checks));
  }

  lemma {:induction false} SameSorted<T(!new)>(le: (T, T) -> bool, a: seq<T>, b: seq<T>)
    requires TotalPreorder(le) && Separates(le, a)
    ensures Sort(le, a) == Sort(le, b) <==> multiset(a) == multiset(b)
  {
    SortSorts(le, a);
    SortSorts(le, b);
    if multiset(a) == multiset(b) {
      SortIgnoresOrder(le, a, b);
    }
  }

  /** The checks of every close have different names, so the manifest never depends on their order. */
  lemma {:induction false} CheckNamesDiffer(a: Answers, errors: nat, t: Thresholds, policy: Policy)
    ensures var cs := Checks(a, errors, t, policy);
      forall i, j :: 0 <= i < j < |cs| ==> cs[i].name != cs[j].name
  {
  }

  // ---------------------------------------------------------------- certification by replay

  /** The answers of two runs agree in everything that a close certifies. */
  ghost predicate SameEvidence(a: Answers, b: Answers, scope: seq<int>) {
    && a.posting.failed == b.posting.failed && a.health == b.health
    && RevaluationOf(a).status == RevaluationOf(b).status
    && RevaluationOf(a).issuesCount == RevaluationOf(b).issuesCount
    && ConsolidationOf(a).status == ConsolidationOf(b).status
    && ConsolidationOf(a).manifestHash == ConsolidationOf(b).manifestHash
    && ConsolidationOf(a).issuesCount == ConsolidationOf(b).issuesCount
    && forall c :: c in scope ==> SameCycle(a, b, c)
  }

  ghost predicate SameCycle(a: Answers, b: Answers, c: int) {
    && (c in a.cycles <==> c in b.cycles)
    && (c in a.cycles ==>
          var x, y := a.cycles[c], b.cycles[c];
          && x.processed == y.processed && x.confirmed == y.confirmed && x.differences == y.differences
          && x.disputed == y.disputed && x.closed == y.closed && x.openItems == y.openItems)
  }

  lemma {:induction false} MapAppend<T, U>(f: T -> U, s: seq<T>, t: seq<T>)
    ensures Map(f, s + t) == Map(f, s) + Map(f, t)
  {
    if s == [] {
      assert s + t == t;
    } else {
      assert (s + t)[1..] == s[1..] + t;
      MapAppend(f, s[1..], t);
    }
  }

  lemma {:induction false} SameCyclesSameRows(a: Answers, b: Answers, scope: seq<int>)
    requires forall c :: c in scope ==> SameCycle(a, b, c)
    ensures Map(SignRow, Answered(a, scope)) == Map(SignRow, Answered(b, scope))
  {
    if scope != [] {
      var n := |scope| - 1;
      var c := scope[n];
      assert scope == scope[..n] + [c] && c in scope;
      SameCyclesSameRows(a, b, scope[..n]);
      if c in a.cycles {
        MapAppend(SignRow, Answered(a, scope[..n]), [RowOf(c, a.cycles[c])]);
        MapAppend(SignRow, Answered(b, scope[..n]), [RowOf(c, b.cycles[c])]);
      } else {
        assert Answered(a, scope) == Answered(a, scope[..n]) && Answered(b, scope) == Answered(b, scope[..n]);
      }
    }
  }

  /** A row of one run has a row of the other with the same signature. */
  lemma {:induction false} SameRowsCover(a: Answers, b: Answers, scope: seq<int>, c: int)
    requires multiset(Map(SignRow, Answered(a, scope))) == multiset(Map(SignRow, Answered(b, scope)))
    requires c in scope && c in a.cycles
    ensures c in b.cycles && SignRow(RowOf(c, a.cycles[c])) == SignRow(RowOf(c, b.cycles[c]))
  {
    var rows, rows' := Answered(a, scope), Answered(b, scope);
    AnsweredSpec(a, scope);
    AnsweredSpec(b, scope);
    MapAt(SignRow, rows);
    MapAt(SignRow, rows');
    var i :| 0 <= i < |rows| && rows[i] == RowOf(c, a.cycles[c]);
    PermutationKeepsMembers(Map(SignRow, rows), Map(SignRow, rows'));
    assert Map(SignRow, rows)[i] in Map(SignRow, rows');
    var j :| 0 <= j < |rows'| && Map(SignRow, rows')[j] == SignRow(rows[i]);
    assert rows'[j] in rows';
  }

  /** The checks see nothing but the evidence. */
  lemma {:induction false} SameEvidenceSameChecks(a: Answers, b: Answers, scope: seq<int>, t: Thresholds, policy: Policy)
    requires SameEvidence(a, b, scope)
    ensures Checks(a, Raised(a, scope), t, policy) == Checks(b, Raised(b, scope), t, policy)
  {
    RaisedSpec(a, scope);
    RaisedSpec(b, scope);
  }

  lemma {:induction false} ReportParts(generatedAt: string, q: Request, a: Answers, t: Thresholds, policy: Policy)
    ensures DistinctParts(ReportOf(generatedAt, q, a, t, policy))
  {
    hide ScopeIds, Checks;
    ScopeDistinct([q.company] + q.companies);
    AnsweredDistinct(a, Scope(q));
    CheckNamesDiffer(a, Raised(a, Scope(q)), t, policy);
  }

  /** The same close, with its companies given in another order or more than once. */
  ghost predicate SameRequest(q: Request, q': Request) {
    && q'.periodKey == q.periodKey && q'.company == q.company && q'.parent == q.parent && q'.hash == q.hash
    && forall c :: c in [q.company] + q.companies <==> c in [q'.company] + q'.companies
  }

  lemma {:induction false} SameScope(q: Request, q': Request)
    requires SameRequest(q, q')
    ensures Scope(q) == Scope(q') && ScopeHash(q) == ScopeHash(q')
  {
    hide ScopeIds;
    ScopeIsASet([q.company] + q.companies, [q'.company] + q'.companies);
  }

  /** Two closes of the same companies have the same manifest exactly when their evidence is the
      same, whenever they were run and in whatever order and however often the companies were given. */
  lemma {:induction false} ManifestIsEvidence(at: string, at': string, q: Request, q': Request, a: Answers, b: Answers,
                                              t: Thresholds, policy: Policy)
    requires SameRequest(q, q')
    ensures var r := ReportOf(at, q, a, t, policy);
      var s := ReportOf(at', q', b, t, policy);
      CanonicalManifest(r) == CanonicalManifest(s) <==> SameEvidence(a, b, Scope(q))
  {
    hide Scope, ScopeHash, Checks, CanonicalManifest, Map;
    var r := ReportOf(at, q, a, t, policy);
    var s := ReportOf(at', q', b, t, policy);
    var scope := Scope(q);
    SameScope(q, q');
    ReportParts(at, q, a, t, policy);
    ReportParts(at', q', b, t, policy);
    ManifestIsCanonical(r, s);
    if SameFacts(r, s) {
      forall c | c in scope
        ensures SameCycle(a, b, c)
      {
        if c in a.cycles {
          SameRowsCover(a, b, scope, c);
        } else if c in b.cycles {
          SameRowsCover(b, a, scope, c);
        }
      }
    }
    if SameEvidence(a, b, scope) {
      SameCyclesSameRows(a, b, scope);
      SameEvidenceSameChecks(a, b, scope, t, policy);
    }
  }

  /** The thresholds of a certification. */
  const LAX: Thresholds := Thresholds(999999, 999999, 999999, 999999, 999999, 999999, 999999, 999999)

  /** `certify_phase12_monthly_determinism`: the replay certifies exactly when the first close
      passes, the second one gives the same evidence, and the second one posts nothing. */
  method CertifyDeterminism(at: string, at': string, q: Request, first: Answers, second: Answers, policy: Policy)
    returns (passed: bool, deterministic: bool)
    ensures deterministic <==>
      && SameEvidence(first, second, Scope(q)) && second.posting.posted == 0 && second.revaluation.Some?
      && (second.revaluation.value.status == "COMPLETED" || (second.revaluation.value.status == "BLOCKED" && policy == ALERT))
    ensures passed <==>
      && Passes(first, Scope(q), Thresholds(999999, 999999, 999999, 999999, 999999, 999999, 999999, 999999), policy)
      && SameEvidence(first, second, Scope(q)) && second.posting.posted == 0
  {
    hide Scope, ScopeHash, Checks, CanonicalManifest, Answered, Raised;
    var r := RunMonthlyClose(at, q, first, LAX, policy);
    var s := RunMonthlyClose(at', q, second, LAX, policy);
    var fxOk := s.revaluation.status == "COMPLETED";
    if policy == ALERT {
      fxOk := s.revaluation.status in {"COMPLETED", "BLOCKED"};
      if s.revaluation.status == "BLOCKED" && !s.fxBlockedWarning {
        fxOk := false;
      }
    }
    deterministic := CanonicalManifest(r) == CanonicalManifest(s) && s.posting.posted == 0 && fxOk;
    passed := r.cyclePassed && s.cyclePassed && deterministic;
    ManifestIsEvidence(at, at', q, q, first, second, LAX, policy);
  }

  // ---------------------------------------------------------------- the values of the source

  /** The name of each check and when it passes. */
  lemma {:induction false} CheckList(a: Answers, errors: nat, t: Thresholds, policy: Policy)
    ensures var cs, h := Checks(a, errors, t, policy), a.health;
      && |cs| == 12
      && cs[0].name == "fx_revaluation_policy"
      && (cs[0].passed <==> a.revaluation.Some? && (a.revaluation.value.status == "COMPLETED"
                            || (a.revaluation.value.status == "BLOCKED" && policy == ALERT)))
      && cs[1].name == "inbox_failed_within_threshold" && (cs[1].passed <==> h.inboxFailed <= t.inboxFailed)
      && cs[2].name == "outbox_failed_within_threshold" && (cs[2].passed <==> h.outboxFailed <= t.outboxFailed)
      && cs[3].name == "missing_lines_within_threshold" && (cs[3].passed <==> h.missingLines <= t.missingLines)
      && cs[4].name == "stale_revaluation_within_threshold" && (cs[4].passed <==> h.staleRevaluation <= t.staleRevaluation)
      && cs[5].name == "open_intercompany_within_threshold" && (cs[5].passed <==> h.openIntercompany <= t.openIntercompany)
  {
  }

  lemma {:induction false} CheckListRest(a: Answers, errors: nat, t: Thresholds, policy: Policy)
    ensures var cs, h := Checks(a, errors, t, policy), a.health;
      && |cs| == 12
      && cs[6].name == "disputed_intercompany_within_threshold"
      && (cs[6].passed <==> h.disputedIntercompany <= t.disputedIntercompany)
      && cs[7].name == "blocked_consolidation_within_threshold"
      && (cs[7].passed <==> h.blockedConsolidation <= t.blockedConsolidation)
      && cs[8].name == "open_consolidation_exception_within_threshold"
      && (cs[8].passed <==> h.openConsolidationException <= t.openConsolidationException)
      && cs[9].name == "intercompany_cycle_errors_empty" && (cs[9].passed <==> errors == 0)
      && cs[10].name == "consolidation_not_failed"
      && (cs[10].passed <==> a.consolidation.Some? && (a.consolidation.value.status == "COMPLETED"
                             || a.consolidation.value.status == "BLOCKED"))
      && cs[11].name == "posting_without_failures" && (cs[11].passed <==> a.posting.failed == 0)
  {
  }

  /** What the manifest keeps of a warning, a check and a row: all but messages, details and hashes. */
  lemma {:induction false} SignaturesKeep(w: Warning, v: Warning, c: Check, d: Check, r: Row, s: Row)
    ensures SignWarning(w).code == w.code && SignWarning(w).severity == if w.severity == "" then "WARN" else w.severity
    ensures SignCheck(c) == SignCheck(d) <==> c.name == d.name && c.passed == d.passed
    ensures SignRow(r) == SignRow(s) <==>
      && r.company == s.company && r.processed == s.processed && r.confirmed == s.confirmed
      && r.differences == s.differences && r.disputed == s.disputed && r.closed == s.closed && r.openItems == s.openItems
    ensures SignRow(r).company == r.company && SignRow(r).processed == r.processed && SignRow(r).confirmed == r.confirmed
    ensures SignRow(r).differences == r.differences && SignRow(r).disputed == r.disputed
    ensures SignRow(r).closed == r.closed && SignRow(r).openItems == r.openItems
    ensures SignCheck(c).name == c.name && SignCheck(c).passed == c.passed
  {
  }

  /** The manifest lists warnings by code and severity, rows by company and checks by name, ascending. */
  lemma {:induction false} ManifestOrder(r: Report, i: nat, j: nat)
    requires i < j
    ensures var m := CanonicalManifest(r);
      && (j < |m.intercompany| ==> m.intercompany[i].company <= m.intercompany[j].company)
      && (j < |m.checks| ==> FirstDifference((x: char, y: char) => x < y, m.checks[i].name, m.checks[j].name))
      && (j < |m.warnings| && m.warnings[i].code != m.warnings[j].code ==>
            FirstDifference((x: char, y: char) => x < y, m.warnings[i].code, m.warnings[j].code))
      && (j < |m.warnings| && m.warnings[i].code == m.warnings[j].code ==>
            FirstDifference((x: char, y: char) => x < y, m.warnings[i].severity, m.warnings[j].severity))
  {
    hide FirstDifference, Map;
    var m := CanonicalManifest(r);
    SignatureOrders();
    SortSorts(CompanyFirst, Map(SignRow, r.intercompany));
    SortSorts(NameFirst, Map(SignCheck, r.checks));
    SortSorts(WarningFirst, Map(SignWarning, r.warnings));
    if j < |m.intercompany| {
      assert CompanyFirst(m.intercompany[i], m.intercompany[j]);
    }
    if j < |m.checks| {
      assert NameFirst(m.checks[i], m.checks[j]);
      StringLeAscends(m.checks[i].name, m.checks[j].name);
    }
    if j < |m.warnings| {
      assert WarningFirst(m.warnings[i], m.warnings[j]);
      StringLeAscends(m.warnings[i].code, m.warnings[j].code);
      StringLeAscends(m.warnings[i].severity, m.warnings[j].severity);
    }
  }

  lemma {:induction false} StringLeAscends(a: string, b: string)
    ensures StringLe(a, b) <==> FirstDifference((x: char, y: char) => x < y, a, b)
  {
    StringLeMeans(a, b);
  }

  /** The manifest's other fields; a risk that is missing counts as HIGH. */
  lemma {:induction false} ManifestFields(r: Report)
    ensures var m := CanonicalManifest(r);
      && m.periodKey == r.periodKey && m.scopeHash == r.scopeHash && m.policy == r.policy && m.cyclePassed == r.cyclePassed
      && m.riskLevel == (if r.riskLevel == "" then "HIGH" else r.riskLevel)
      && m.postingFailed == r.posting.failed && m.revaluationStatus == r.revaluation.status
      && m.revaluationIssues == r.revaluation.issuesCount && m.fxBlockedWarning == r.fxBlockedWarning
      && m.consolidationStatus == r.consolidation.status && m.consolidationHash == r.consolidation.manifestHash
      && m.consolidationIssues == r.consolidation.issuesCount && m.health == r.health
  {
  }
}
