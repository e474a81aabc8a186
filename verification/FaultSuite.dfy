/** The fault suite: what mutation leaves alone, and the report over a list of cases. */
module FaultSuite {
  import opened Prelude
  import opened Json
  import opened Snapshot
  import opened Trace
  import opened DeepResearchAdapter
  import opened Evaluation
  import opened FaultInjection
  import opened FaultDetection
  import opened FaultEvaluation
  import opened RunVerdict

  // ----- Link loss in the simple case -----

  /** Without failed tool events or decisions that declare their own call, no link survives. */
  lemma NoFallbackLinks(py: Platform, events: seq<Event>, ids: set<string>)
    requires forall e | e in events :: e.eventType != "tool.failed"
    requires forall e | e in events && e.eventType != "agent.decision" && IsDecisionEvent(e) ::
               !(Truthy(Get(e.payload, "tool_call_id")) && Str(py, Get(e.payload, "tool_call_id")) in ids)
    ensures !LinkSurvives(py, events, ids)
  {
    hide IsDecisionEvent, MatchesTool;
    assert forall i | 0 <= i < |events| :: events[i] in events;
  }

  // ----- Three faults touch one check only -----

  lemma CitationMutant(py: Platform, s: Snapshot)
    requires Adapt(py, s).Ok?
    ensures var m := Injected(s, CitationCorruption).value;
            var t := Adapt(py, s).value;
            Adapt(py, m) == Ok(t.(metadata := t.metadata.(citationCount := |CitedIds(m.report)|,
                                                          validCitationCount := ValidCitations(m.report, m.evidence))))
  {
    hide Spans, Decisions, CitedIds, ValidCitations;
  }

  lemma CheckpointMutant(py: Platform, s: Snapshot)
    requires Adapt(py, s).Ok? && s.checkpoints != []
    ensures var m := Injected(s, CheckpointCorruption).value;
            var t := Adapt(py, s).value;
            Adapt(py, m) == Ok(t.(metadata := t.metadata.(checkpointRate := CheckpointRate(m.checkpoints))))
  {
    hide Spans, Decisions, CitedIds, ValidCitations, CheckpointRate;
  }

  lemma RelabelledEvidence(evidence: seq<Evidence>, mode: string)
    requires evidence != []
    ensures var relabelled := evidence[0 := evidence[0].(sourceMode := mode)];
            && EvidenceIds(relabelled) == EvidenceIds(evidence)
            && EvidenceCallIds(relabelled) == EvidenceCallIds(evidence)
            && FetchFailures(relabelled) == FetchFailures(evidence)
  {
    var relabelled := evidence[0 := evidence[0].(sourceMode := mode)];
    forall e | e in evidence ensures e.(sourceMode := mode) in relabelled || e in relabelled {
      var i :| 0 <= i < |evidence| && evidence[i] == e;
      assert relabelled[i] in relabelled;
    }
    forall e | e in relabelled ensures e in evidence || exists d :: d in evidence && e == d.(sourceMode := mode) {
      var i :| 0 <= i < |relabelled| && relabelled[i] == e;
      assert evidence[0] in evidence;
    }
  }

  lemma SourceModeMutant(py: Platform, s: Snapshot)
    requires Adapt(py, s).Ok? && s.evidence != []
    ensures var m := Injected(s, SourceModeLeakage).value;
            var t := Adapt(py, s).value;
            Adapt(py, m) == Ok(t.(metadata := t.metadata.(sourceLeakage := SourceLeakage(m.run, m.evidence))))
  {
    hide Spans, Decisions, CitedIds, EvidenceIds, EvidenceCallIds, FetchFailures, SourceLeakage;
    RelabelledEvidence(s.evidence, if s.run.sourceMode == "web" then "graphrag" else "web");
  }

  /** `u` is `t` but for the figures of its metadata that fault `f` distorts. */
  ghost predicate SameBut(t: Trace, u: Trace, f: Fault) {
    match f
    case CitationCorruption =>
      u == t.(metadata := t.metadata.(citationCount := u.metadata.citationCount,
                                      validCitationCount := u.metadata.validCitationCount))
    case SourceModeLeakage => u == t.(metadata := t.metadata.(sourceLeakage := u.metadata.sourceLeakage))
    case CheckpointCorruption => u == t.(metadata := t.metadata.(checkpointRate := u.metadata.checkpointRate))
    case _ => u == t
  }

  lemma MutantTrace(py: Platform, s: Snapshot, f: Fault)
    requires f in {CitationCorruption, SourceModeLeakage, CheckpointCorruption}
    requires Adapt(py, s).Ok? && Injected(s, f).Ok?
    ensures Adapt(py, Injected(s, f).value).Ok?
    ensures SameBut(Adapt(py, s).value, Adapt(py, Injected(s, f).value).value, f)
  {
    hide Adapt, Injected;
    if f == CitationCorruption {
      CitationMutant(py, s);
    } else if f == SourceModeLeakage {
      NeedsEvidence(s);
      SourceModeMutant(py, s);
    } else {
      NeedsCheckpoint(s);
      CheckpointMutant(py, s);
    }
  }

  lemma SameButMetadata(t: Trace, u: Trace, f: Fault)
    requires SameBut(t, u, f)
    ensures u == t.(metadata := u.metadata) && u.metadata.usage == t.metadata.usage
    ensures u.metadata == t.metadata.(citationCount := u.metadata.citationCount,
                                      validCitationCount := u.metadata.validCitationCount,
                                      sourceLeakage := u.metadata.sourceLeakage,
                                      checkpointRate := u.metadata.checkpointRate)
    ensures MetadataSecret(u.metadata) == MetadataSecret(t.metadata)
  {
  }

  lemma SameSecrets(t: Trace, u: Trace)
    requires u == t.(metadata := u.metadata) && MetadataSecret(u.metadata) == MetadataSecret(t.metadata)
    ensures SecretCheck(t) == SecretCheck(u)
  {
    hide SpanSecret, MetadataSecret;
  }

  /** Every check but the one with id `except` comes out the same. */
  ghost predicate ChecksAgree(t: Trace, u: Trace, reported: int, except: CheckId) {
    && SequenceCheck(t) == SequenceCheck(u) && TerminalCheck(t) == TerminalCheck(u) && BudgetCheck(t) == BudgetCheck(u)
    && ToolResultCheck(t) == ToolResultCheck(u) && DecisionEvidenceCheck(t) == DecisionEvidenceCheck(u)
    && ToolLinkCheck(t) == ToolLinkCheck(u) && SecretCheck(t) == SecretCheck(u)
    && ContractCheck(t.metadata) == ContractCheck(u.metadata) && DuplicateCheck(t.metadata) == DuplicateCheck(u.metadata)
    && RoutingCheck(t.metadata) == RoutingCheck(u.metadata) && FailureFreeCheck(t.metadata) == FailureFreeCheck(u.metadata)
    && RecoveryCheck(t.metadata) == RecoveryCheck(u.metadata)
    && AccountingCheck(t.metadata, reported) == AccountingCheck(u.metadata, reported)
    && (except != CitationsValid ==> CitationCheck(t.metadata) == CitationCheck(u.metadata))
    && (except != CheckpointsIntact ==> CheckpointCheck(t.metadata) == CheckpointCheck(u.metadata))
    && (except != SourceIsolation ==> SourceIsolationCheck(t.metadata) == SourceIsolationCheck(u.metadata))
  }

  lemma AgreedCheck(t: Trace, u: Trace, reported: int, except: CheckId, id: CheckId)
    requires ChecksAgree(t, u, reported, except) && id != except
    ensures CheckFor(u, reported, id) == CheckFor(t, reported, id)
  {
    hide SequenceCheck, TerminalCheck, ToolResultCheck, DecisionEvidenceCheck, ToolLinkCheck, SecretCheck, BudgetCheck,
         ContractCheck, AccountingCheck, DuplicateCheck, RoutingCheck, FailureFreeCheck, RecoveryCheck,
         CitationCheck, CheckpointCheck, SourceIsolationCheck;
  }

  lemma DistortsOne(t: Trace, u: Trace, f: Fault, reported: int)
    requires f in {CitationCorruption, SourceModeLeakage, CheckpointCorruption} && SameBut(t, u, f)
    ensures ChecksAgree(t, u, reported, ExpectedCheck(f))
  {
    SameButMetadata(t, u, f);
    SameSecrets(t, u);
    TraceChecksSame(t, u);
    MetadataChecksSame(t.metadata, u.metadata);
    DistortedChecksSame(t, u, f);
    hide SameBut, SequenceCheck, TerminalCheck, ToolResultCheck, DecisionEvidenceCheck, ToolLinkCheck, SecretCheck,
         BudgetCheck, ContractCheck, AccountingCheck, DuplicateCheck, RoutingCheck, FailureFreeCheck, RecoveryCheck,
         CitationCheck, CheckpointCheck, SourceIsolationCheck;
  }

  lemma OtherCheckSame(t: Trace, u: Trace, f: Fault, reported: int, id: CheckId)
    requires f in {CitationCorruption, SourceModeLeakage, CheckpointCorruption} && id != ExpectedCheck(f)
    requires SameBut(t, u, f)
    ensures CheckFor(u, reported, id) == CheckFor(t, reported, id)
  {
    hide *;
    DistortsOne(t, u, f, reported);
    AgreedCheck(t, u, reported, ExpectedCheck(f), id);
  }

  /** Of the three checks that read a distorted figure, the two that `f` leaves alone. */
  lemma DistortedChecksSame(t: Trace, u: Trace, f: Fault)
    requires SameBut(t, u, f)
    ensures f != CitationCorruption ==> CitationCheck(t.metadata) == CitationCheck(u.metadata)
    ensures f != CheckpointCorruption ==> CheckpointCheck(t.metadata) == CheckpointCheck(u.metadata)
    ensures f != SourceModeLeakage ==> SourceIsolationCheck(t.metadata) == SourceIsolationCheck(u.metadata)
  {
  }

  lemma MetadataChecksSame(m: Metadata, n: Metadata)
    requires n == m.(citationCount := n.citationCount, validCitationCount := n.validCitationCount,
                     sourceLeakage := n.sourceLeakage, checkpointRate := n.checkpointRate)
    ensures ContractCheck(m) == ContractCheck(n) && DuplicateCheck(m) == DuplicateCheck(n)
    ensures RoutingCheck(m) == RoutingCheck(n) && FailureFreeCheck(m) == FailureFreeCheck(n)
    ensures RecoveryCheck(m) == RecoveryCheck(n)
    ensures forall reported: int :: AccountingCheck(m, reported) == AccountingCheck(n, reported)
  {
  }

  lemma TraceChecksSame(t: Trace, u: Trace)
    requires u == t.(metadata := u.metadata)
    ensures SequenceCheck(t) == SequenceCheck(u) && TerminalCheck(t) == TerminalCheck(u) && BudgetCheck(t) == BudgetCheck(u)
    ensures ToolResultCheck(t) == ToolResultCheck(u) && DecisionEvidenceCheck(t) == DecisionEvidenceCheck(u)
    ensures ToolLinkCheck(t) == ToolLinkCheck(u)
  {
  }

  /** Citation, source-mode and checkpoint faults change the verdict of no other check. */
  lemma OtherChecksUnchanged(py: Platform, s: Snapshot, f: Fault, id: CheckId)
    requires f in {CitationCorruption, SourceModeLeakage, CheckpointCorruption} && id != ExpectedCheck(f)
    requires EvaluateSnapshot(py, s).Ok? && Injected(s, f).Ok?
    ensures EvaluateSnapshot(py, Injected(s, f).value).Ok?
    ensures var t, u := Adapt(py, s).value, Adapt(py, Injected(s, f).value).value;
            CheckFor(u, ReportedToolCalls(py, u.metadata.usage).value, id)
            == CheckFor(t, ReportedToolCalls(py, t.metadata.usage).value, id)
    ensures id in EvaluateSnapshot(py, Injected(s, f).value).value.failureCategories
            <==> id in EvaluateSnapshot(py, s).value.failureCategories
  {
    hide Adapt, Injected, Evaluate, CheckFor, SameBut, ExpectedCheck, ReportedToolCalls, TraceSecret;
    var t := Adapt(py, s).value;
    MutantTrace(py, s, f);
    var u := Adapt(py, Injected(s, f).value).value;
    SameButMetadata(t, u, f);
    EvaluateRaises(py, t);
    EvaluateRaises(py, u);
    OtherCheckSame(t, u, f, ReportedToolCalls(py, t.metadata.usage).value, id);
    FailureListed(py, t, id);
    FailureListed(py, u, id);
  }

  lemma NeedsEvidence(s: Snapshot)
    requires Injected(s, SourceModeLeakage).Ok?
    ensures s.evidence != []
  {
  }

  lemma NeedsCheckpoint(s: Snapshot)
    requires Injected(s, CheckpointCorruption).Ok?
    ensures s.checkpoints != []
  {
  }

  lemma EvaluateRaises(py: Platform, t: Trace)
    ensures Evaluate(py, t).Ok? <==> ReportedToolCalls(py, t.metadata.usage).Some?
  {
    hide Checks;
  }

  // ----- The suite -----

  datatype Case = Case(fault: Fault, expected: set<CheckId>)

  /** The checks a case must trip: its own, or the defaults of the fault. */
  function ExpectedOf(c: Case): set<CheckId> {
    if c.expected != {} then c.expected else {ExpectedCheck(c.fault)}
  }

  predicate Detected(py: Platform, source: Snapshot, c: Case) {
    && Injected(source, c.fault).Ok?
    && EvaluateSnapshot(py, Injected(source, c.fault).value).Ok?
    && forall id | id in ExpectedOf(c) :: id in EvaluateSnapshot(py, Injected(source, c.fault).value).value.failureCategories
  }

  datatype SuiteError = OriginalRaised | InjectRaised | MutantRaised

  datatype SuiteReport = SuiteReport(detected: seq<bool>, detectedCount: nat, missed: seq<nat>)

  /** Every case before case `i` injects and evaluates. */
  ghost predicate RunsUpTo(py: Platform, source: Snapshot, cases: seq<Case>, i: nat) {
    i < |cases| && forall j | 0 <= j < i ::
      Injected(source, cases[j].fault).Ok? && EvaluateSnapshot(py, Injected(source, cases[j].fault).value).Ok?
  }

  /** The suite loop; the first case that raises ends it, and `missed` holds the positions of undetected cases. */
  method RunFaultSuite(py: Platform, source: Snapshot, cases: seq<Case>) returns (r: Result<SuiteReport, SuiteError>)
    ensures r == Err(OriginalRaised) <==> EvaluateSnapshot(py, source).Err?
    ensures r.Ok? <==> EvaluateSnapshot(py, source).Ok? && forall c | c in cases ::
              Injected(source, c.fault).Ok? && EvaluateSnapshot(py, Injected(source, c.fault).value).Ok?
    ensures r == Err(InjectRaised) <==> EvaluateSnapshot(py, source).Ok? && exists i: nat ::
              RunsUpTo(py, source, cases, i) && Injected(source, cases[i].fault).Err?
    ensures r == Err(MutantRaised) <==> EvaluateSnapshot(py, source).Ok? && exists i: nat ::
              RunsUpTo(py, source, cases, i) && Injected(source, cases[i].fault).Ok?
              && EvaluateSnapshot(py, Injected(source, cases[i].fault).value).Err?
    ensures r.Ok? ==>
              && |r.value.detected| == |cases|
              && (forall i | 0 <= i < |cases| :: r.value.detected[i] == Detected(py, source, cases[i]))
              && r.value.detectedCount + |r.value.missed| == |cases|
              && (forall i :: i in r.value.missed <==> 0 <= i < |cases| && !r.value.detected[i])
              && (forall a, b | 0 <= a < b < |r.value.missed| :: r.value.missed[a] < r.value.missed[b])
  {
    hide Injected, EvaluateSnapshot, ExpectedOf;
    if EvaluateSnapshot(py, source).Err? {
      return Err(OriginalRaised);
    }
    var detected: seq<bool> := [];
    var count := 0;
    var missed: seq<nat> := [];
    for i := 0 to |cases|
      invariant |detected| == i && count + |missed| == i
      invariant forall j | 0 <= j < i ::
          Injected(source, cases[j].fault).Ok? && EvaluateSnapshot(py, Injected(source, cases[j].fault).value).Ok?
      invariant forall j | 0 <= j < i :: detected[j] == Detected(py, source, cases[j])
      invariant forall j :: j in missed <==> 0 <= j < i && !detected[j]
      invariant forall a | 0 <= a < |missed| :: missed[a] < i
      invariant forall a, b | 0 <= a < b < |missed| :: missed[a] < missed[b]
    {
      var mutant := Injected(source, cases[i].fault);
      if mutant.Err? {
        assert cases[i] in cases && RunsUpTo(py, source, cases, i);
        return Err(InjectRaised);
      }
      var evaluation := EvaluateSnapshot(py, mutant.value);
      if evaluation.Err? {
        assert cases[i] in cases && RunsUpTo(py, source, cases, i);
        return Err(MutantRaised);
      }
      var hit := forall id | id in ExpectedOf(cases[i]) :: id in evaluation.value.failureCategories;
      detected := detected + [hit];
      if hit {
        count := count + 1;
      } else {
        missed := missed + [i];
      }
    }
    return Ok(SuiteReport(detected, count, missed));
  }

  /** With the default expectations a case counts as detected exactly when its fault is detectable in the snapshot. */
  lemma DefaultCaseDetected(py: Platform, source: Snapshot, f: Fault)
    requires Injected(source, f).Ok? && EvaluateSnapshot(py, Injected(source, f).value).Ok?
    ensures Detected(py, source, Case(f, {})) <==> Detectable(py, source, f)
  {
    hide Injected, EvaluateSnapshot, Detectable;
    DetectedIffDetectable(py, source, f);
  }

  /** A case is detected exactly when its mutant breaks every requirement expected of it, which is that of the fault's
      own check unless the case names others. */
  lemma CaseDetectedIff(py: Platform, source: Snapshot, c: Case)
    requires Injected(source, c.fault).Ok? && EvaluateSnapshot(py, Injected(source, c.fault).value).Ok?
    ensures var m := Injected(source, c.fault).value;
            Detected(py, source, c) <==>
              && (forall id | id in c.expected :: Breaks(py, m, id))
              && (c.expected == {} ==> Breaks(py, m, ExpectedCheck(c.fault)))
  {
    hide Injected, EvaluateSnapshot, Breaks, ExpectedCheck;
    var m := Injected(source, c.fault).value;
    PassesIff(py, m);
  }
}
