/** The deterministic evaluator, on traces of DeepResearch runs. */
module Evaluation {
  import opened Counting
  import opened Prelude
  import opened Json
  import opened Secrets
  import opened Trace

  /** The check ids, in the order of the rule table. */
  datatype CheckId =
    | ContiguousSequence | WasmhatchMetrics | RequiredContractsPass | CitationsValid | CheckpointsIntact
    | SourceIsolation | ToolAccountingConsistent | DuplicateToolCallsAbsent | VerificationRecoveryRouting
    | ToolFailureFree | ToolFailuresRecovered | TerminalDisposition | ToolResultRecorded
    | ApprovalBeforeCommit | PostCommitValidation | DecisionEvidence | ToolDecisionLink | NoRawSecret | EventBudget

  datatype CheckStatus = Pass | Fail | NotApplicable

  datatype Severity = Required | Advisory

  datatype Check = Check(id: CheckId, status: CheckStatus, severity: Severity)

  datatype Report = Report(passed: bool, score: real, checks: seq<Check>, failureCategories: seq<CheckId>)

  datatype EvalError = UsageNotNumeric

  function Required(id: CheckId, passed: bool): Check {
    Check(id, if passed then Pass else Fail, Severity.Required)
  }

  function SequenceCheck(t: Trace): Check {
    Required(ContiguousSequence, forall i | 0 <= i < |t.spans| :: t.spans[i].sequence == i + 1)
  }

  function ContractCheck(m: Metadata): Check {
    Required(RequiredContractsPass, m.requiredTotal > 0 && m.requiredPassed == m.requiredTotal)
  }

  function CitationCheck(m: Metadata): Check {
    Required(CitationsValid,
             if m.evidenceCount != 0 then m.citationCount > 0 && m.citationCount == m.validCitationCount
             else m.citationCount == 0)
  }

  function CheckpointCheck(m: Metadata): Check {
    Required(CheckpointsIntact, m.checkpointCount > 0 && m.checkpointRate == Some(1.0))
  }

  function SourceIsolationCheck(m: Metadata): Check {
    Required(SourceIsolation, !m.sourceLeakage)
  }

  /** `int(usage.get("usage", usage).get("tool_calls", 0) or 0)`; `None` when Python raises. */
  function ReportedToolCalls(py: Platform, usage: map<string, Json>): Option<int> {
    if "usage" !in usage then IntOrZero(py, Get(usage, "tool_calls"))
    else
      match usage["usage"]
      case JObj(inner) => IntOrZero(py, Get(inner, "tool_calls"))
      case _ => None
  }

  function AccountingCheck(m: Metadata, reported: int): Check {
    Required(ToolAccountingConsistent, reported == m.toolCallCount)
  }

  function DuplicateCheck(m: Metadata): Check {
    Required(DuplicateToolCallsAbsent, m.duplicateFingerprints == 0)
  }

  function RoutingCheck(m: Metadata): Check {
    Required(VerificationRecoveryRouting, m.misroutedReplans == 0)
  }

  function FailureFreeCheck(m: Metadata): Check {
    Check(ToolFailureFree,
          if m.toolCallCount == 0 then NotApplicable else if m.failedToolCalls == 0 then Pass else Fail,
          Advisory)
  }

  function RecoveryCheck(m: Metadata): Check {
    if m.failedToolCalls == 0 then Check(ToolFailuresRecovered, NotApplicable, Advisory)
    else Required(ToolFailuresRecovered, m.unrecoveredToolFailures == 0)
  }

  function TerminalCheck(t: Trace): Check {
    Required(TerminalDisposition, t.state != "active")
  }

  function ToolResultCheck(t: Trace): Check {
    if forall s | s in t.spans :: s.kind != TOOL then
      Check(ToolResultRecorded, NotApplicable, Advisory)
    else
      Required(ToolResultRecorded, forall s | s in t.spans && s.kind == TOOL :: s.status == OK || s.status == ERROR)
  }

  function DecisionEvidenceCheck(t: Trace): Check {
    if forall s | s in t.spans :: s.kind != TOOL then
      Check(DecisionEvidence, NotApplicable, Severity.Required)
    else
      Required(DecisionEvidence, t.decisions != [])
  }

  predicate LinksTool(t: Trace, d: Decision) {
    d.toolCallId.Some? && exists s | s in t.spans :: s.kind == TOOL && s.spanId == d.toolCallId.value
  }

  function ToolLinkCheck(t: Trace): Check {
    if forall s | s in t.spans :: s.kind != TOOL then
      Check(ToolDecisionLink, NotApplicable, Severity.Required)
    else
      Required(ToolDecisionLink, exists d | d in t.decisions :: LinksTool(t, d))
  }

  predicate OptionSecret(s: Option<string>) {
    s.Some? && Secret(s.value)
  }

  predicate SpanSecret(s: TraceSpan) {
    || Secret(s.spanId) || Secret(s.name)
    || match s.attributes
       case EventAttributes(_, stage, payload) => OptionSecret(stage) || JsonSecret(JObj(payload))
       case ToolAttributes(taskId, sourceMode, status, argsHash, _, errorCode) =>
         OptionSecret(taskId) || Secret(sourceMode) || Secret(status) || OptionSecret(argsHash) || OptionSecret(errorCode)
  }

  predicate MetadataSecret(m: Metadata) {
    || Secret(m.runId) || Secret(m.sessionId) || Secret(m.sourceMode) || Secret(m.workflowMode)
    || OptionSecret(m.currentStage) || OptionSecret(m.errorCode)
    || JsonSecret(JObj(m.usage)) || JsonSecret(JObj(m.provenance))
    || (exists k | k in m.contractKinds :: Secret(k))
    || (exists c | c in m.fetchFailureCategories :: Secret(c))
  }

  predicate TraceSecret(t: Trace) {
    || Secret(t.traceId) || Secret(t.state) || OptionSecret(t.task)
    || (exists s | s in t.spans :: SpanSecret(s))
    || MetadataSecret(t.metadata)
  }

  function SecretCheck(t: Trace): Check {
    Required(NoRawSecret, !TraceSecret(t))
  }

  function BudgetCheck(t: Trace): Check {
    Required(EventBudget, |t.spans| <= 256)
  }

  /** The rule that reports each id; the three WasmHatch rules do not apply to these traces. */
  function CheckFor(t: Trace, reported: int, id: CheckId): (c: Check)
    ensures c.id == id
  {
    var m := t.metadata;
    match id
    case ContiguousSequence => SequenceCheck(t)
    case WasmhatchMetrics => Check(WasmhatchMetrics, NotApplicable, Advisory)
    case RequiredContractsPass => ContractCheck(m)
    case CitationsValid => CitationCheck(m)
    case CheckpointsIntact => CheckpointCheck(m)
    case SourceIsolation => SourceIsolationCheck(m)
    case ToolAccountingConsistent => AccountingCheck(m, reported)
    case DuplicateToolCallsAbsent => DuplicateCheck(m)
    case VerificationRecoveryRouting => RoutingCheck(m)
    case ToolFailureFree => FailureFreeCheck(m)
    case ToolFailuresRecovered => RecoveryCheck(m)
    case TerminalDisposition => TerminalCheck(t)
    case ToolResultRecorded => ToolResultCheck(t)
    case ApprovalBeforeCommit => Check(ApprovalBeforeCommit, NotApplicable, Severity.Required)
    case PostCommitValidation => Check(PostCommitValidation, NotApplicable, Severity.Required)
    case DecisionEvidence => DecisionEvidenceCheck(t)
    case ToolDecisionLink => ToolLinkCheck(t)
    case NoRawSecret => SecretCheck(t)
    case EventBudget => BudgetCheck(t)
  }

  /** The rule table. */
  const RULES: seq<CheckId> := [
    ContiguousSequence, WasmhatchMetrics, RequiredContractsPass, CitationsValid, CheckpointsIntact, SourceIsolation,
    ToolAccountingConsistent, DuplicateToolCallsAbsent, VerificationRecoveryRouting, ToolFailureFree,
    ToolFailuresRecovered, TerminalDisposition, ToolResultRecorded, ApprovalBeforeCommit, PostCommitValidation,
    DecisionEvidence, ToolDecisionLink, NoRawSecret, EventBudget]

  /** The place of a rule in the table. */
  function Rank(id: CheckId): (i: nat)
    ensures i < |RULES| && RULES[i] == id
  {
    match id
    case ContiguousSequence => 0
    case WasmhatchMetrics => 1
    case RequiredContractsPass => 2
    case CitationsValid => 3
    case CheckpointsIntact => 4
    case SourceIsolation => 5
    case ToolAccountingConsistent => 6
    case DuplicateToolCallsAbsent => 7
    case VerificationRecoveryRouting => 8
    case ToolFailureFree => 9
    case ToolFailuresRecovered => 10
    case TerminalDisposition => 11
    case ToolResultRecorded => 12
    case ApprovalBeforeCommit => 13
    case PostCommitValidation => 14
    case DecisionEvidence => 15
    case ToolDecisionLink => 16
    case NoRawSecret => 17
    case EventBudget => 18
  }

  function Checks(t: Trace, reported: int): seq<Check> {
    seq(|RULES|, i requires 0 <= i < |RULES| => CheckFor(t, reported, RULES[i]))
  }

  function RequiredFailures(checks: seq<Check>): seq<CheckId> {
    if checks == [] then []
    else
      (if checks[0].severity == Severity.Required && checks[0].status == Fail then [checks[0].id] else [])
      + RequiredFailures(checks[1..])
  }

  function CountStatus(checks: seq<Check>, status: CheckStatus): nat {
    if checks == [] then 0 else (if checks[0].status == status then 1 else 0) + CountStatus(checks[1..], status)
  }

  /** Percentage of applicable checks that pass, before rounding. */
  function Score(checks: seq<Check>): real {
    var passed := CountStatus(checks, Pass);
    var applicable := passed + CountStatus(checks, Fail);
    if applicable == 0 then 0.0 else passed as real / applicable as real * 100.0
  }

  function Evaluate(py: Platform, t: Trace): Result<Report, EvalError> {
    match ReportedToolCalls(py, t.metadata.usage)
    case None => Err(UsageNotNumeric)
    case Some(reported) =>
      var checks := Checks(t, reported);
      var failures := RequiredFailures(checks);
      Ok(Report(failures == [], Score(checks), checks, failures))
  }

  lemma {:induction false} RequiredFailuresMembers(checks: seq<Check>, id: CheckId)
    ensures id in RequiredFailures(checks)
            <==> exists i | 0 <= i < |checks| :: checks[i] == Check(id, Fail, Severity.Required)
  {
    if checks != [] {
      RequiredFailuresMembers(checks[1..], id);
      assert forall i | 0 <= i < |checks| - 1 :: checks[1..][i] == checks[i + 1];
      if checks[0] == Check(id, Fail, Severity.Required) {
      } else if i :| 0 <= i < |checks| && checks[i] == Check(id, Fail, Severity.Required) {
        assert checks[1..][i - 1] == checks[i];
      }
    }
  }

  /** A check id is among the failure categories exactly when its own rule failed as a required check. */
  lemma FailureListed(py: Platform, t: Trace, id: CheckId)
    requires Evaluate(py, t).Ok?
    ensures id in Evaluate(py, t).value.failureCategories
            <==> CheckFor(t, ReportedToolCalls(py, t.metadata.usage).value, id) == Check(id, Fail, Severity.Required)
  {
    hide CheckFor, RULES, Rank;
    var reported := ReportedToolCalls(py, t.metadata.usage).value;
    var checks := Checks(t, reported);
    RequiredFailuresMembers(checks, id);
    assert checks[Rank(id)] == CheckFor(t, reported, id);
    forall j | 0 <= j < |checks| ensures checks[j].id == id ==> checks[j] == CheckFor(t, reported, id) {
      assert checks[j] == CheckFor(t, reported, RULES[j]);
    }
  }

  // ----- The verdict and the score -----

  /** The rule of `id` came out as a failed required check. */
  predicate RuleFailed(t: Trace, reported: int, id: CheckId) {
    CheckFor(t, reported, id).status == Fail && CheckFor(t, reported, id).severity == Severity.Required
  }

  /** An evaluation passes exactly when no rule at all came out as a failed required check. */
  lemma PassedIff(py: Platform, t: Trace)
    requires Evaluate(py, t).Ok?
    ensures Evaluate(py, t).value.passed
            <==> forall id: CheckId :: !RuleFailed(t, ReportedToolCalls(py, t.metadata.usage).value, id)
  {
    hide CheckFor;
    var r := Evaluate(py, t).value;
    forall id: CheckId
      ensures id in r.failureCategories <==> RuleFailed(t, ReportedToolCalls(py, t.metadata.usage).value, id)
    {
      FailureListed(py, t, id);
    }
    if r.failureCategories != [] {
      assert r.failureCategories[0] in r.failureCategories;
    }
  }

  /** The table lists no rule twice. */
  lemma RulesDistinct(i: nat, j: nat)
    requires i < j < |RULES|
    ensures RULES[i] != RULES[j]
  {
    RankOfRule(i);
    RankOfRule(j);
  }

  lemma RankOfRule(i: nat)
    requires i < |RULES|
    ensures Rank(RULES[i]) == i
  {
    assert |RULES| == 19;
    if i < 10 {
      assert i == 0 || i == 1 || i == 2 || i == 3 || i == 4 || i == 5 || i == 6 || i == 7 || i == 8 || i == 9;
    } else {
      assert i == 10 || i == 11 || i == 12 || i == 13 || i == 14 || i == 15 || i == 16 || i == 17 || i == 18;
    }
  }

  /** The rules that came out with a status. */
  ghost function RulesWith(t: Trace, reported: int, status: CheckStatus): set<CheckId> {
    set id: CheckId | CheckFor(t, reported, id).status == status
  }

  ghost function IdsWith(checks: seq<Check>, status: CheckStatus): set<CheckId> {
    set c | c in checks && c.status == status :: c.id
  }

  ghost predicate DifferentIds(checks: seq<Check>) {
    forall i, j | 0 <= i < j < |checks| :: checks[i].id != checks[j].id
  }

  lemma DifferentTail(checks: seq<Check>)
    requires checks != [] && DifferentIds(checks)
    ensures DifferentIds(checks[1..]) && forall c | c in checks[1..] :: c.id != checks[0].id
  {
  }

  lemma IdsWithCons(checks: seq<Check>, status: CheckStatus)
    requires checks != []
    ensures IdsWith(checks, status)
            == IdsWith(checks[1..], status) + if checks[0].status == status then {checks[0].id} else {}
  {
    assert checks == [checks[0]] + checks[1..];
  }

  lemma {:induction false} CountStatusIs(checks: seq<Check>, status: CheckStatus)
    requires DifferentIds(checks)
    ensures CountStatus(checks, status) == |IdsWith(checks, status)|
  {
    if checks == [] {
      assert IdsWith(checks, status) == {};
    } else {
      DifferentTail(checks);
      assert checks[0].id !in IdsWith(checks[1..], status);
      hide IdsWith, DifferentIds;
      CountStatusIs(checks[1..], status);
      IdsWithCons(checks, status);
    }
  }

  lemma StatusCounted(t: Trace, reported: int, status: CheckStatus)
    ensures CountStatus(Checks(t, reported), status) == |RulesWith(t, reported, status)|
  {
    hide CheckFor, RULES, Rank;
    var checks := Checks(t, reported);
    forall i, j | 0 <= i < j < |checks| ensures checks[i].id != checks[j].id {
      RulesDistinct(i, j);
      assert checks[i] == CheckFor(t, reported, RULES[i]) && checks[j] == CheckFor(t, reported, RULES[j]);
    }
    assert DifferentIds(checks);
    CountStatusIs(checks, status);
    forall id: CheckId ensures id in RulesWith(t, reported, status) <==> id in IdsWith(checks, status) {
      assert checks[Rank(id)] == CheckFor(t, reported, id) && checks[Rank(id)] in checks;
      forall c | c in checks ensures c == CheckFor(t, reported, c.id) {
        var i :| 0 <= i < |checks| && checks[i] == c;
        assert checks[i] == CheckFor(t, reported, RULES[i]);
      }
    }
    assert RulesWith(t, reported, status) == IdsWith(checks, status);
  }

  /** The share of passing rules among those that passed or failed, in percent; 100 exactly when something
      passed and nothing failed, and 0 exactly when nothing passed. */
  lemma ScoreIs(py: Platform, t: Trace)
    requires Evaluate(py, t).Ok?
    ensures var reported := ReportedToolCalls(py, t.metadata.usage).value;
            var passing, failing := RulesWith(t, reported, Pass), RulesWith(t, reported, Fail);
            var score := Evaluate(py, t).value.score;
            && (passing + failing == {} ==> score == 0.0)
            && (passing + failing != {} ==>
                  score * (|passing| + |failing|) as real == 100.0 * |passing| as real)
            && (score == 100.0 <==> passing != {} && failing == {})
            && (score == 0.0 <==> passing == {})
            && 0.0 <= score <= 100.0
  {
    hide CheckFor, RULES, RequiredFailures, RulesWith;
    var reported := ReportedToolCalls(py, t.metadata.usage).value;
    var passing, failing := RulesWith(t, reported, Pass), RulesWith(t, reported, Fail);
    StatusCounted(t, reported, Pass);
    StatusCounted(t, reported, Fail);
    assert Evaluate(py, t).value.score == Share(|passing|, |failing|);
    hide Evaluate, Checks, CountStatus, Score;
    ShareFacts(|passing|, |failing|);
    assert passing + failing == {} <==> passing == {} && failing == {};
  }

  function Share(p: nat, f: nat): real {
    if p + f == 0 then 0.0 else p as real / (p + f) as real * 100.0
  }

  lemma ShareFacts(p: nat, f: nat)
    ensures p + f > 0 ==> Share(p, f) * (p + f) as real == 100.0 * p as real
    ensures Share(p, f) == 100.0 <==> p > 0 && f == 0
    ensures Share(p, f) == 0.0 <==> p == 0
    ensures 0.0 <= Share(p, f) <= 100.0
  {
    if p + f > 0 {
      var n, q := (p + f) as real, p as real / (p + f) as real;
      assert q * n == p as real;
      assert 0.0 <= q <= 1.0;
      assert q == 1.0 <==> f == 0;
    }
  }
}
