/** What the evaluation of an adapted run says about the snapshot itself: every check, read off the records. */
module RunVerdict {
  import opened Counting
  import opened Prelude
  import opened Json
  import opened Secrets
  import opened Snapshot
  import opened Trace
  import opened Citations
  import opened DeepResearchAdapter
  import opened Evaluation
  import opened FaultDetection
  import opened Ordering
  import opened ToolRecovery

  // ----- The requirements -----

  /** Completed with at least one required contract, and every required one passed. */
  ghost predicate Accepted(s: Snapshot) {
    && s.run.status == "completed" && ContractsMet(s.contracts)
  }

  ghost predicate ContractsMet(contracts: seq<Contract>) {
    && (exists c | c in contracts :: c.required)
    && (forall c | c in contracts && c.required :: c.passed == Some(true))
  }

  ghost predicate Bears(evidence: seq<Evidence>, callId: string) {
    callId != "" && exists e | e in evidence :: e.toolCallId == Some(callId)
  }

  ghost predicate Unsuccessful(c: ToolCall) {
    c.status == "failed" || c.status == "cancelled" || c.status == "denied"
  }

  /** The failed call was made good: a later call of its task completed; or, in an accepted run, a completed call of
      its task that bears evidence delivered a result or is named by a recovery event. */
  ghost predicate MadeGood(py: Platform, s: Snapshot, failed: ToolCall) {
    exists c | c in s.toolCalls ::
      && c.status == "completed" && c.taskId == failed.taskId
      && (c.createdAt > failed.createdAt
          || (Accepted(s) && Bears(s.evidence, c.toolCallId)
              && (c.resultPresent || NamedAsRecovery(py, s.events, failed.toolCallId, c.toolCallId))))
  }

  /** A recovery event says that the call `named` recovered the call `failed`. */
  ghost predicate NamedAsRecovery(py: Platform, events: seq<Event>, failed: string, named: string) {
    exists e, x | e in events ::
      && e.eventType == "tool.recovery_confirmed" && StrOrEmpty(py, Get(e.payload, "failed_tool_call_id")) == failed
      && Lists(Get(e.payload, "recovered_by_tool_call_ids"), x) && Str(py, x) == named
  }

  ghost predicate Lists(j: Json, x: Json) {
    Iterate(j).Some? && x in Iterate(j).value
  }

  /** A verification that failed for nothing but what repairing the report can mend was answered by a full replan. */
  ghost predicate ReplannedNeedlessly(py: Platform, e: Event) {
    var failures := Get(e.payload, "failures");
    && e.eventType == "verification.completed" && Get(e.payload, "passed") == JBool(false)
    && Get(e.payload, "recovery_action") == JStr("replan")
    && (exists x :: Lists(failures, x) && Truthy(x))
    && (forall x | Lists(failures, x) && Truthy(x) :: MendedInReport(Str(py, x)))
  }

  ghost predicate MendedInReport(name: string) {
    || name == "citation_integrity" || name == "claim_support" || name == "evidence_card_coverage"
    || name == "report_consistency" || name == "required_section" || name == "source_diversity"
  }

  ghost predicate Decides(e: Event) {
    || e.eventType == "agent.decision" || e.eventType == "plan.replanning"
    || (e.eventType == "verification.completed" && Get(e.payload, "passed") == JBool(true))
  }

  ghost predicate ToolEvent(e: Event) {
    e.eventType == "tool.completed" || e.eventType == "tool.failed"
  }

  ghost predicate Names(py: Platform, e: Event, ids: set<string>) {
    var id := Get(e.payload, "tool_call_id");
    Truthy(id) && Str(py, id) in ids
  }

  ghost predicate NextToolEvent(events: seq<Event>, i: nat, j: nat) {
    i < j < |events| && ToolEvent(events[j]) && forall k | i < k < j :: !ToolEvent(events[k])
  }

  /** Event `j` is a later tool event about the call that event `i` names. */
  ghost predicate Answers(events: seq<Event>, i: nat, j: nat) {
    && i < j < |events| && ToolEvent(events[j])
    && PyEq(Get(events[j].payload, "tool_call_id"), Get(events[i].payload, "tool_call_id"))
  }

  /** Decision event `i` is about a recorded call: the one it names, which for an `agent.decision` a later tool event
      must answer, or, when it names none and is no `agent.decision`, the one of the next tool event. */
  ghost predicate IsAboutCall(py: Platform, events: seq<Event>, ids: set<string>, i: nat) {
    && i < |events| && Decides(events[i])
    && if Truthy(Get(events[i].payload, "tool_call_id")) then
         Names(py, events[i], ids) && (events[i].eventType == "agent.decision" ==> exists j: nat :: Answers(events, i, j))
       else
         events[i].eventType != "agent.decision" && exists j: nat :: NextToolEvent(events, i, j) && Names(py, events[j], ids)
  }

  /** Two calls made with the same fingerprint. */
  ghost predicate Repeats(a: ToolCall, b: ToolCall) {
    NonEmpty(a.argsHash) && NonEmpty(b.argsHash) && CallKey(a) == CallKey(b)
  }

  /** A credential pattern occurs in one of the strings of the snapshot that its trace carries. */
  ghost predicate LeaksSecret(s: Snapshot) {
    || Secret("deepresearch_" + s.run.runId) || Secret(s.run.status) || OptionSecret(s.task)
    || Secret(s.run.runId) || Secret(s.run.sessionId) || Secret(s.run.sourceMode) || Secret(s.run.workflowMode)
    || OptionSecret(s.run.currentStage) || OptionSecret(s.run.errorCode)
    || JsonSecret(JObj(s.run.usage)) || JsonSecret(JObj(s.provenance))
    || (exists e | e in s.events :: Secret(e.eventType) || OptionSecret(e.stage) || JsonSecret(JObj(e.payload)))
    || (exists c | c in s.toolCalls :: CallSecret(c))
    || (exists c | c in s.contracts :: Secret(c.kind))
    || (exists e | e in s.evidence ::
          e.pageFetchStatus == Some("failed") && NonEmpty(e.pageFetchErrorCode) && Secret(e.pageFetchErrorCode.value))
  }

  ghost predicate CallSecret(c: ToolCall) {
    || Secret(c.toolCallId) || Secret(c.toolName) || OptionSecret(c.taskId) || Secret(c.sourceMode) || Secret(c.status)
    || OptionSecret(c.argsHash) || OptionSecret(c.errorCode)
  }

  /** The usage record that counts: the nested one when there is one. */
  ghost predicate CountsCalls(py: Platform, usage: map<string, Json>, n: int) {
    var record := if "usage" in usage && usage["usage"].JObj? then usage["usage"].fields else usage;
    IntOrZero(py, Get(record, "tool_calls")) == Some(n)
  }

  /** What the check `id` asks of the snapshot. */
  ghost predicate Meets(py: Platform, s: Snapshot, id: CheckId) {
    match id
    case RequiredContractsPass => ContractsMet(s.contracts)
    case CitationsValid =>
      && (s.evidence == [] <==> CitedIds(s.report) == [])
      && forall cited | cited in CitedIds(s.report) :: exists e | e in s.evidence :: e.evidenceId == cited
    case CheckpointsIntact => s.checkpoints != [] && forall c | c in s.checkpoints :: c.integrityValid
    case SourceIsolation => forall e | e in s.evidence :: e.sourceMode == s.run.sourceMode
    case ToolAccountingConsistent => CountsCalls(py, s.run.usage, |s.toolCalls|)
    case DuplicateToolCallsAbsent => forall i, j | 0 <= i < j < |s.toolCalls| :: !Repeats(s.toolCalls[i], s.toolCalls[j])
    case VerificationRecoveryRouting => forall e | e in s.events :: !ReplannedNeedlessly(py, e)
    case ToolFailureFree => forall c | c in s.toolCalls :: !Unsuccessful(c)
    case ToolFailuresRecovered => forall c | c in s.toolCalls && Unsuccessful(c) :: MadeGood(py, s, c)
    case TerminalDisposition => s.run.status != "active"
    case ToolResultRecorded => forall c | c in s.toolCalls :: c.status == "completed" || Unsuccessful(c)
    case DecisionEvidence => exists e | e in s.events :: Decides(e)
    case ToolDecisionLink => exists i: nat :: IsAboutCall(py, s.events, ToolIds(s.toolCalls), i)
    case NoRawSecret => !LeaksSecret(s)
    case EventBudget => |s.events| + |s.toolCalls| <= 256
    case _ => true
  }

  /** Whether the check `id` says anything about the snapshot. */
  ghost predicate Applies(s: Snapshot, id: CheckId) {
    && id != WasmhatchMetrics && id != ApprovalBeforeCommit && id != PostCommitValidation
    && (id in {ToolFailureFree, ToolResultRecorded, DecisionEvidence, ToolDecisionLink} ==> s.toolCalls != [])
    && (id == ToolFailuresRecovered ==> exists c | c in s.toolCalls :: Unsuccessful(c))
  }

  /** The checks whose failure fails the run; `tool_failure_free` only advises. */
  ghost predicate Binding(id: CheckId) {
    id != ToolFailureFree
  }

  // ----- The requirements are what the checks test -----

  lemma ContractsAre(contracts: seq<Contract>)
    ensures RequiredTotal(contracts) > 0 && RequiredPassed(contracts) == RequiredTotal(contracts) <==> ContractsMet(contracts)
  {
    var required := (c: Contract) => c.required;
    var passed := (c: Contract) => c.required && c.passed == Some(true);
    CountBounds(contracts, required);
    CountImplies(contracts, passed, required);
    if forall c | c in contracts && c.required :: c.passed == Some(true) {
      CountCongruent(contracts, passed, required);
    } else {
      var c :| c in contracts && c.required && c.passed != Some(true);
      var i :| 0 <= i < |contracts| && contracts[i] == c;
      CountDrops(contracts, passed, required, i);
    }
  }

  lemma CitationsAre(py: Platform, s: Snapshot)
    ensures CitationCheck(MetadataOf(py, s)).status == (if Meets(py, s, CitationsValid) then Pass else Fail)
  {
    var cited := CitedIds(s.report);
    var known := (id: string) => id in EvidenceIds(s.evidence);
    hide CitedIds;
    CountBounds(cited, known);
    assert forall id :: known(id) <==> exists e | e in s.evidence :: e.evidenceId == id;
    if s.evidence == [] && cited != [] {
      assert cited[0] in cited;
    }
  }

  lemma CheckpointsAre(checkpoints: seq<Checkpoint>)
    ensures |checkpoints| > 0 && CheckpointRate(checkpoints) == Some(1.0)
            <==> checkpoints != [] && forall c | c in checkpoints :: c.integrityValid
  {
    var intact := (c: Checkpoint) => c.integrityValid;
    CountBounds(checkpoints, intact);
    if checkpoints != [] {
      if Count(checkpoints, intact) < |checkpoints| {
        RatioBelowOne(Count(checkpoints, intact), |checkpoints|);
      } else {
        RatioOfWhole(|checkpoints|);
      }
    }
  }

  lemma RatioOfWhole(n: nat)
    requires n > 0
    ensures n as real / n as real == 1.0
  {
  }

  lemma {:induction false} RepeatsAre(calls: seq<ToolCall>)
    ensures DuplicateFingerprints(calls) == 0 <==> forall i, j | 0 <= i < j < |calls| :: !Repeats(calls[i], calls[j])
  {
    hide Repeats, RepeatsEarlier;
    if calls != [] {
      var n := |calls| - 1;
      var front := calls[..n];
      RepeatsAre(front);
      LastRepeats(calls);
      assert forall i | 0 <= i < n :: front[i] == calls[i];
    }
  }

  lemma LastRepeats(calls: seq<ToolCall>)
    requires calls != []
    ensures var n := |calls| - 1;
            RepeatsEarlier(calls[..n], calls[n]) <==> exists i | 0 <= i < n :: Repeats(calls[i], calls[n])
  {
    hide CallKey;
    var n := |calls| - 1;
    if RepeatsEarlier(calls[..n], calls[n]) {
      var d :| d in calls[..n] && Fingerprinted(d) && CallKey(d) == CallKey(calls[n]);
      var i :| 0 <= i < n && calls[..n][i] == d;
      assert Repeats(calls[i], calls[n]);
    }
    if i :| 0 <= i < n && Repeats(calls[i], calls[n]) {
      assert calls[..n][i] in calls[..n];
    }
  }

  lemma ReplanIs(py: Platform, e: Event)
    ensures Misrouted(py, e) <==> ReplannedNeedlessly(py, e)
  {
    hide Iterate, Truthy;
    var failures := Get(e.payload, "failures");
    if FailureNames(py, e).Some? {
      var names := FailureNames(py, e).value;
      assert forall x | Lists(failures, x) && Truthy(x) :: Str(py, x) in names;
      assert forall name | name in names :: exists x :: Lists(failures, x) && Truthy(x) && Str(py, x) == name;
    }
  }

  lemma ReplansAre(py: Platform, events: seq<Event>)
    ensures Count(events, (e: Event) => Misrouted(py, e)) == 0 <==> forall e | e in events :: !ReplannedNeedlessly(py, e)
  {
    hide Misrouted, ReplannedNeedlessly;
    CountBounds(events, (e: Event) => Misrouted(py, e));
    forall e | e in events ensures Misrouted(py, e) <==> ReplannedNeedlessly(py, e) {
      ReplanIs(py, e);
    }
  }

  lemma AcceptedIs(s: Snapshot)
    ensures VerifiedTerminal(s.run, s.contracts) <==> Accepted(s)
  {
  }

  lemma BearsIs(evidence: seq<Evidence>, id: string)
    ensures id in EvidenceCallIds(evidence) <==> Bears(evidence, id)
  {
  }

  lemma NamedIs(py: Platform, s: Snapshot, failed: ToolCall)
    ensures ExplicitlyRecovered(py, s.events, s.toolCalls, EvidenceCallIds(s.evidence), failed)
            <==> exists c | c in s.toolCalls ::
                   && c.status == "completed" && c.taskId == failed.taskId && Bears(s.evidence, c.toolCallId)
                   && NamedAsRecovery(py, s.events, failed.toolCallId, c.toolCallId)
  {
    hide Iterate, StrOrEmpty, Str, Get, EvidenceCallIds, Bears;
    var ids := EvidenceCallIds(s.evidence);
    forall c: ToolCall ensures c.toolCallId in ids <==> Bears(s.evidence, c.toolCallId) {
      BearsIs(s.evidence, c.toolCallId);
    }
    if e :| e in s.events && ConfirmsRecovery(py, s.toolCalls, ids, e, failed) {
      var listed := Get(e.payload, "recovered_by_tool_call_ids");
      var x, c :| x in Iterate(listed).value && c in s.toolCalls && c.toolCallId == Str(py, x) && c.status == "completed"
                  && c.taskId == failed.taskId && c.toolCallId in ids;
      assert Lists(listed, x);
    }
    if c :| c in s.toolCalls && c.status == "completed" && c.taskId == failed.taskId && Bears(s.evidence, c.toolCallId)
            && NamedAsRecovery(py, s.events, failed.toolCallId, c.toolCallId) {
      var e, x :| e in s.events && e.eventType == "tool.recovery_confirmed"
                  && StrOrEmpty(py, Get(e.payload, "failed_tool_call_id")) == failed.toolCallId
                  && Lists(Get(e.payload, "recovered_by_tool_call_ids"), x) && Str(py, x) == c.toolCallId;
      assert ConfirmsRecovery(py, s.toolCalls, ids, e, failed);
    }
  }

  lemma MadeGoodIs(py: Platform, s: Snapshot, failed: ToolCall)
    ensures Recovered(py, VerifiedTerminal(s.run, s.contracts), s.events, s.toolCalls, EvidenceCallIds(s.evidence), failed)
            <==> MadeGood(py, s, failed)
  {
    NamedIs(py, s, failed);
    AcceptedIs(s);
    forall c: ToolCall ensures c.toolCallId in EvidenceCallIds(s.evidence) <==> Bears(s.evidence, c.toolCallId) {
      BearsIs(s.evidence, c.toolCallId);
    }
    hide ExplicitlyRecovered, NamedAsRecovery, VerifiedTerminal, Accepted, EvidenceCallIds, Bears;
  }

  lemma FailuresAre(py: Platform, s: Snapshot)
    ensures MetadataOf(py, s).failedToolCalls == 0 <==> forall c | c in s.toolCalls :: !Unsuccessful(c)
    ensures MetadataOf(py, s).unrecoveredToolFailures == 0
            <==> forall c | c in s.toolCalls && Unsuccessful(c) :: MadeGood(py, s, c)
  {
    hide CitedIds, ValidCitations, RequiredTotal, RequiredPassed, SourceLeakage, CheckpointRate, DuplicateFingerprints,
         Misrouted, FetchFailures, Recovered, MadeGood, EvidenceCallIds, VerifiedTerminal;
    var terminal, ids := VerifiedTerminal(s.run, s.contracts), EvidenceCallIds(s.evidence);
    var failed := (c: ToolCall) => FailedStatus(c.status);
    var good := (c: ToolCall) => FailedStatus(c.status) && Recovered(py, terminal, s.events, s.toolCalls, ids, c);
    forall c: ToolCall ensures Recovered(py, terminal, s.events, s.toolCalls, ids, c) <==> MadeGood(py, s, c) {
      MadeGoodIs(py, s, c);
    }
    CountBounds(s.toolCalls, failed);
    CountImplies(s.toolCalls, good, failed);
    if forall c | c in s.toolCalls && Unsuccessful(c) :: MadeGood(py, s, c) {
      CountCongruent(s.toolCalls, good, failed);
    } else {
      var c :| c in s.toolCalls && Unsuccessful(c) && !MadeGood(py, s, c);
      var i :| 0 <= i < |s.toolCalls| && s.toolCalls[i] == c;
      CountDrops(s.toolCalls, good, failed, i);
    }
  }

  /** The figures themselves: how many calls failed, and how many of these were not made good. */
  lemma FiguresAre(py: Platform, s: Snapshot)
    ensures MetadataOf(py, s).failedToolCalls == Count(s.toolCalls, (c: ToolCall) => Unsuccessful(c))
    ensures MetadataOf(py, s).unrecoveredToolFailures
            == Count(s.toolCalls, (c: ToolCall) => Unsuccessful(c) && !MadeGood(py, s, c))
  {
    hide CitedIds, ValidCitations, RequiredTotal, RequiredPassed, SourceLeakage, CheckpointRate, DuplicateFingerprints,
         Misrouted, FetchFailures, Recovered, MadeGood, EvidenceCallIds, VerifiedTerminal;
    var terminal, ids := VerifiedTerminal(s.run, s.contracts), EvidenceCallIds(s.evidence);
    var failed := (c: ToolCall) => FailedStatus(c.status);
    var good := (c: ToolCall) => FailedStatus(c.status) && Recovered(py, terminal, s.events, s.toolCalls, ids, c);
    var open := (c: ToolCall) => Unsuccessful(c) && !MadeGood(py, s, c);
    forall c: ToolCall ensures Recovered(py, terminal, s.events, s.toolCalls, ids, c) <==> MadeGood(py, s, c) {
      MadeGoodIs(py, s, c);
    }
    CountCongruent(s.toolCalls, failed, (c: ToolCall) => Unsuccessful(c));
    SplitCount(s.toolCalls, failed, good, open);
  }

  lemma CountIs(py: Platform, usage: map<string, Json>, n: int)
    requires ReportedToolCalls(py, usage).Some?
    ensures ReportedToolCalls(py, usage) == Some(n) <==> CountsCalls(py, usage, n)
  {
    hide IntOrZero;
  }

  // ----- Decisions -----

  lemma DecidesIs(e: Event)
    ensures IsDecisionEvent(e) <==> Decides(e)
  {
  }

  /** What `FirstToolEvent` finds after event `i`, in terms of the whole trace. */
  lemma ToolEventAfter(events: seq<Event>, i: nat)
    requires i < |events|
    ensures var declared := Get(events[i].payload, "tool_call_id");
            var found := FirstToolEvent(events[i + 1..], declared);
            && (Truthy(declared) ==> (found.Some? <==> exists j: nat :: Answers(events, i, j)))
            && (!Truthy(declared) ==>
                  && (found.Some? ==> exists j: nat :: NextToolEvent(events, i, j))
                  && (forall j: nat | NextToolEvent(events, i, j) :: found == Some(events[j])))
  {
    var declared, later := Get(events[i].payload, "tool_call_id"), events[i + 1..];
    FirstToolEventIsLeast(later, declared);
    hide FirstToolEvent, PyEq, Truthy;
    assert forall j: nat | j < |later| :: later[j] == events[i + 1 + j];
    if Truthy(declared) {
      if j: nat :| Answers(events, i, j) {
        assert MatchesTool(later[j - i - 1], declared);
      }
      if j :| 0 <= j < |later| && MatchesTool(later[j], declared) {
        assert Answers(events, i, i + 1 + j);
      }
    } else {
      forall j: nat | NextToolEvent(events, i, j) ensures FirstToolEvent(later, declared) == Some(events[j]) {
        assert MatchesTool(later[j - i - 1], declared);
        assert forall k | 0 <= k < j - i - 1 :: !MatchesTool(later[k], declared);
      }
      if FirstToolEvent(later, declared).Some? {
        var j := FirstMatch(later, declared);
        assert NextToolEvent(events, i, i + 1 + j);
      }
    }
  }

  lemma {:induction false} FirstMatch(later: seq<Event>, declared: Json) returns (j: nat)
    requires FirstToolEvent(later, declared).Some?
    ensures j < |later| && MatchesTool(later[j], declared) && forall k | 0 <= k < j :: !MatchesTool(later[k], declared)
  {
    hide MatchesTool;
    if MatchesTool(later[0], declared) {
      j := 0;
    } else {
      j := FirstMatch(later[1..], declared);
      j := j + 1;
      assert forall k | 0 < k <= j :: later[k] == later[1..][k - 1];
    }
  }

  lemma LinkedIs(py: Platform, events: seq<Event>, ids: set<string>, i: nat)
    requires i < |events| && IsDecisionEvent(events[i])
    ensures var d := DecisionOf(py, events[i], events[i + 1..]);
            d.toolCallId.Some? && d.toolCallId.value in ids <==> IsAboutCall(py, events, ids, i)
  {
    ToolEventAfter(events, i);
    DecidesIs(events[i]);
    hide FirstToolEvent, Answers, NextToolEvent, IsDecisionEvent, Decides, Truthy;
    assert !Truthy(JNull);
  }

  /** The decisions that link to a recorded call are those of the events that are about one. */
  lemma LinksAre(py: Platform, events: seq<Event>, ids: set<string>)
    ensures LinksInto(Decisions(py, events), ids) <==> exists i: nat :: IsAboutCall(py, events, ids, i)
    ensures Decisions(py, events) != [] <==> exists e | e in events :: Decides(e)
  {
    DecisionsAt(py, events);
    CountBounds(events, IsDecisionEvent);
    forall e: Event ensures IsDecisionEvent(e) <==> Decides(e) {
      DecidesIs(e);
    }
    assert Decisions(py, events) != [] <==> exists e | e in events :: Decides(e);
    hide IsDecisionEvent, Decides, DecisionOf, DecisionCount;
    if i: nat :| IsAboutCall(py, events, ids, i) {
      LinkedIs(py, events, ids, i);
      assert DecisionOf(py, events[i], events[i + 1..]) in Decisions(py, events);
    }
    if LinksInto(Decisions(py, events), ids) {
      var d :| d in Decisions(py, events) && d.toolCallId.Some? && d.toolCallId.value in ids;
      var i := DecisionFrom(py, events, d);
      LinkedIs(py, events, ids, i);
    }
  }

  lemma {:induction false} DecisionFrom(py: Platform, events: seq<Event>, d: Decision) returns (i: nat)
    requires d in Decisions(py, events)
    ensures i < |events| && IsDecisionEvent(events[i]) && d == DecisionOf(py, events[i], events[i + 1..])
  {
    hide IsDecisionEvent, DecisionOf;
    if IsDecisionEvent(events[0]) && d == DecisionOf(py, events[0], events[1..]) {
      i := 0;
    } else {
      i := DecisionFrom(py, events[1..], d);
      assert events[1..][i + 1..] == events[i + 2..];
      i := i + 1;
    }
  }

  // ----- Secrets -----

  lemma {:induction false} DecimalDigits(n: nat)
    ensures forall m | 0 <= m < |Decimal(n)| :: '0' <= Decimal(n)[m] <= '9'
  {
    if n >= 10 {
      DecimalDigits(n / 10);
    }
  }

  /** The id of an event's span cannot look like a credential. */
  lemma EventIdIsNoSecret(n: nat)
    ensures !Secret("event_" + Decimal(n))
  {
    hide Secret, Decimal;
    DecimalDigits(n);
    var id := "event_" + Decimal(n);
    forall m | 0 <= m < |id| ensures WordChar(id[m]) && id[m] != 'g' && id[m] != 'b' && id[m] != 'B' {
      if m >= 6 {
        assert id[m] == Decimal(n)[m - 6];
      }
    }
    PlainNameIsNoSecret(id);
  }

  lemma EventSpanSecret(e: Event, ordinal: nat, n: nat)
    ensures SpanSecret(SpanOf(EventRecord(ordinal, e), n))
            <==> Secret(e.eventType) || OptionSecret(e.stage) || JsonSecret(JObj(e.payload))
  {
    hide Secret, JsonSecret, OptionSecret, KindOf, EventStatus;
    EventIdIsNoSecret(e.eventId);
  }

  lemma CallSpanSecret(c: ToolCall, ordinal: nat, n: nat)
    ensures SpanSecret(SpanOf(ToolRecord(ordinal, c), n)) <==> CallSecret(c)
  {
    hide Secret, JsonSecret, OptionSecret, ToolStatus;
  }

  ghost predicate EventLeaks(e: Event) {
    Secret(e.eventType) || OptionSecret(e.stage) || JsonSecret(JObj(e.payload))
  }

  lemma SpansLeak(events: seq<Event>, calls: seq<ToolCall>)
    ensures (exists span | span in Spans(events, calls) :: SpanSecret(span))
            <==> (exists e | e in events :: EventLeaks(e)) || (exists c | c in calls :: CallSecret(c))
  {
    hide Spans, SpanSecret, SpanOf, CallSecret, Secret, JsonSecret, OptionSecret;
    var records := Records(events, calls);
    if span :| span in Spans(events, calls) && SpanSecret(span) {
      var r, n := SpanRecord(events, calls, span);
      match r {
        case EventRecord(ordinal, e) =>
          EventSpanSecret(e, ordinal, n);
          assert e in events;
        case ToolRecord(ordinal, c) =>
          CallSpanSecret(c, ordinal, n);
          assert c in calls;
      }
    }
    if e :| e in events && EventLeaks(e) {
      var i :| 0 <= i < |events| && events[i] == e;
      assert records[i] == EventRecord(e.eventId, e);
      var span, n := RecordSpan(events, calls, records[i]);
      EventSpanSecret(e, e.eventId, n);
    }
    if c :| c in calls && CallSecret(c) {
      var i :| 0 <= i < |calls| && calls[i] == c;
      var r := records[|events| + i];
      assert r == ToolRecord(r.ordinal, c);
      var span, n := RecordSpan(events, calls, r);
      CallSpanSecret(c, r.ordinal, n);
    }
  }

  lemma FetchCodesLeak(evidence: seq<Evidence>)
    ensures (exists c | c in FetchFailures(evidence) :: Secret(c))
            <==> exists e | e in evidence ::
                   e.pageFetchStatus == Some("failed") && NonEmpty(e.pageFetchErrorCode) && Secret(e.pageFetchErrorCode.value)
  {
    hide Secret;
    PlainNameIsNoSecret("unspecified");
    if e :| e in evidence && e.pageFetchStatus == Some("failed") && NonEmpty(e.pageFetchErrorCode)
            && Secret(e.pageFetchErrorCode.value) {
      assert e.pageFetchErrorCode.value in FetchFailures(evidence);
    }
  }

  lemma SecretsAre(py: Platform, s: Snapshot, t: Trace)
    requires Adapt(py, s) == Ok(t)
    ensures TraceSecret(t) <==> LeaksSecret(s)
  {
    hide Secret, JsonSecret, OptionSecret, SpanSecret, CallSecret, Spans, FetchFailures, Decisions, CitedIds, ValidCitations,
         RequiredTotal, RequiredPassed, SourceLeakage, CheckpointRate, DuplicateFingerprints, Misrouted, VerifiedTerminal,
         FailedCount, RecoveredCount, RecordsFit, RecoveryIterable, VerificationIterable, DecisionsFit, EnvelopeFits;
    SpansLeak(s.events, s.toolCalls);
    FetchCodesLeak(s.evidence);
    assert t.metadata == MetadataOf(py, s);
    assert (exists k | k in t.metadata.contractKinds :: Secret(k)) <==> exists c | c in s.contracts :: Secret(c.kind);
  }

  // ----- The verdict -----

  /** A check as the snapshot has it: not applicable, met, or not met. */
  ghost predicate Tells(py: Platform, s: Snapshot, c: Check) {
    && c.status == (if !Applies(s, c.id) then NotApplicable else if Meets(py, s, c.id) then Pass else Fail)
    && (Applies(s, c.id) ==> (c.severity == Severity.Required <==> Binding(c.id)))
    && (!Applies(s, c.id) ==>
          (c.severity == Severity.Required
           <==> c.id in {ApprovalBeforeCommit, PostCommitValidation, DecisionEvidence, ToolDecisionLink}))
  }

  lemma SequenceIs(events: seq<Event>, calls: seq<ToolCall>)
    ensures forall i | 0 <= i < |Spans(events, calls)| :: Spans(events, calls)[i].sequence == i + 1
    ensures |Spans(events, calls)| == |events| + |calls|
  {
    hide SortBy, Records, RecordLe, KindOf, EventStatus, ToolStatus;
  }

  /** The checks that read the metadata. */
  lemma MetadataTells(py: Platform, s: Snapshot, t: Trace, reported: int, id: CheckId)
    requires t.metadata == MetadataOf(py, s) && ReportedToolCalls(py, s.run.usage) == Some(reported)
    requires id in {RequiredContractsPass, CheckpointsIntact, SourceIsolation, ToolAccountingConsistent,
                    DuplicateToolCallsAbsent, VerificationRecoveryRouting}
    ensures Tells(py, s, CheckFor(t, reported, id))
  {
    hide CitedIds, ValidCitations, RequiredTotal, RequiredPassed, CheckpointRate, DuplicateFingerprints, Misrouted,
         FetchFailures, RecoveredCount, FailedCount, ReportedToolCalls, ContractsMet, CountsCalls, ReplannedNeedlessly, Repeats;
    match id {
      case RequiredContractsPass => ContractsAre(s.contracts);
      case CheckpointsIntact => CheckpointsAre(s.checkpoints);
      case SourceIsolation =>
      case ToolAccountingConsistent => CountIs(py, s.run.usage, |s.toolCalls|);
      case DuplicateToolCallsAbsent => RepeatsAre(s.toolCalls);
      case VerificationRecoveryRouting => ReplansAre(py, s.events);
    }
  }

  lemma FailuresTell(py: Platform, s: Snapshot, t: Trace, reported: int, id: CheckId)
    requires t.metadata == MetadataOf(py, s) && id in {CitationsValid, ToolFailureFree, ToolFailuresRecovered}
    ensures Tells(py, s, CheckFor(t, reported, id))
  {
    FailuresAre(py, s);
    CitationsAre(py, s);
    hide CitedIds, ValidCitations, RequiredTotal, RequiredPassed, CheckpointRate, DuplicateFingerprints, Misrouted,
         FetchFailures, RecoveredCount, FailedCount, MadeGood;
    assert t.metadata.toolCallCount == |s.toolCalls|;
  }

  /** The checks that read the spans and the decisions. */
  lemma SpansTell(py: Platform, s: Snapshot, t: Trace, reported: int, id: CheckId)
    requires t.spans == Spans(s.events, s.toolCalls) && t.decisions == Decisions(py, s.events) && t.state == s.run.status
    requires id in {ContiguousSequence, TerminalDisposition, ToolResultRecorded, DecisionEvidence, ToolDecisionLink, EventBudget}
    ensures Tells(py, s, CheckFor(t, reported, id))
  {
    hide Spans, Decisions, IsAboutCall, Decides, ToolIds, LinksInto;
    SequenceIs(s.events, s.toolCalls);
    ToolSpans(s.events, s.toolCalls);
    LinksAre(py, s.events, ToolIds(s.toolCalls));
    match id {
      case ToolResultRecorded => ResultsAre(s.events, s.toolCalls);
      case ToolDecisionLink => LinkTells(py, s, t, reported);
      case _ =>
    }
  }

  lemma LinkTells(py: Platform, s: Snapshot, t: Trace, reported: int)
    requires t.spans == Spans(s.events, s.toolCalls) && t.decisions == Decisions(py, s.events)
    ensures Tells(py, s, CheckFor(t, reported, ToolDecisionLink))
  {
    hide Spans, Decisions, IsAboutCall, ToolIds, LinksInto;
    ToolSpans(s.events, s.toolCalls);
    LinksAre(py, s.events, ToolIds(s.toolCalls));
    LinkCheckFails(py, s, t);
  }

  lemma ResultsAre(events: seq<Event>, calls: seq<ToolCall>)
    ensures (forall span | span in Spans(events, calls) && span.kind == TOOL :: span.status == OK || span.status == ERROR)
            <==> forall c | c in calls :: c.status == "completed" || Unsuccessful(c)
  {
    hide Spans;
    forall c | c in calls
      ensures exists span :: span in Spans(events, calls) && span.kind == TOOL && span.status == ToolStatus(c.status)
    {
      var i :| 0 <= i < |calls| && calls[i] == c;
      var span := CallSpan(events, calls, i);
    }
    forall span | span in Spans(events, calls) && span.kind == TOOL
      ensures exists c :: c in calls && span.status == ToolStatus(c.status)
    {
      var r, n := SpanRecord(events, calls, span);
      assert r.ToolRecord? && r.call in calls;
    }
  }

  /** Every check of an evaluated snapshot says what its records say. */
  lemma CheckTells(py: Platform, s: Snapshot, id: CheckId)
    requires EvaluateSnapshot(py, s).Ok?
    ensures Adapt(py, s).Ok? && ReportedToolCalls(py, s.run.usage).Some?
    ensures Tells(py, s, CheckFor(Adapt(py, s).value, ReportedToolCalls(py, s.run.usage).value, id))
  {
    hide Adapt, Meets, Spans, Decisions, MetadataOf, ReportedToolCalls, Checks;
    var t := Adapt(py, s).value;
    Adapted(py, s, t);
    SameUsage(py, s);
    var reported := ReportedToolCalls(py, s.run.usage).value;
    if id in {RequiredContractsPass, CheckpointsIntact, SourceIsolation, ToolAccountingConsistent,
              DuplicateToolCallsAbsent, VerificationRecoveryRouting} {
      MetadataTells(py, s, t, reported, id);
    } else if id in {CitationsValid, ToolFailureFree, ToolFailuresRecovered} {
      FailuresTell(py, s, t, reported, id);
    } else if id in {ContiguousSequence, TerminalDisposition, ToolResultRecorded, DecisionEvidence, ToolDecisionLink,
                     EventBudget} {
      SpansTell(py, s, t, reported, id);
    } else if id == NoRawSecret {
      SecretsAre(py, s, t);
      assert Meets(py, s, id) <==> !LeaksSecret(s) by { NoLeakIsMet(py, s); }
    }
  }

  lemma NoLeakIsMet(py: Platform, s: Snapshot)
    ensures Meets(py, s, NoRawSecret) <==> !LeaksSecret(s)
  {
    hide LeaksSecret;
  }

  lemma SameUsage(py: Platform, s: Snapshot)
    ensures MetadataOf(py, s).usage == s.run.usage
  {
  }

  /** The check fails the run: it applies, its requirement is not met, and it is not merely advice. */
  ghost predicate Breaks(py: Platform, s: Snapshot, id: CheckId) {
    Applies(s, id) && Binding(id) && !Meets(py, s, id)
  }

  /** A run passes exactly when its snapshot breaks no requirement, and the failure categories of the report are
      exactly the requirements broken. */
  lemma PassesIff(py: Platform, s: Snapshot)
    requires EvaluateSnapshot(py, s).Ok?
    ensures EvaluateSnapshot(py, s).value.passed <==> forall id: CheckId :: !Breaks(py, s, id)
    ensures forall id :: id in EvaluateSnapshot(py, s).value.failureCategories <==> Breaks(py, s, id)
  {
    EvaluationOf(py, s);
    hide *;
    var t, reported := Adapt(py, s).value, ReportedToolCalls(py, s.run.usage).value;
    PassedIff(py, t);
    forall id: CheckId ensures RuleFailed(t, reported, id) <==> Breaks(py, s, id) {
      CheckTells(py, s, id);
      ToldFailure(py, s, t, reported, id);
    }
    forall id ensures id in EvaluateSnapshot(py, s).value.failureCategories <==> Breaks(py, s, id) {
      FailureListed(py, t, id);
      FailedMeans(t, reported, id);
    }
  }

  lemma EvaluationOf(py: Platform, s: Snapshot)
    requires EvaluateSnapshot(py, s).Ok?
    ensures Adapt(py, s).Ok? && ReportedToolCalls(py, s.run.usage).Some?
    ensures Adapt(py, s).value.metadata.usage == s.run.usage
    ensures Evaluate(py, Adapt(py, s).value) == Ok(EvaluateSnapshot(py, s).value)
  {
    hide Adapt, MetadataOf, ReportedToolCalls, Checks;
    Adapted(py, s, Adapt(py, s).value);
    SameUsage(py, s);
  }

  lemma ToldFailure(py: Platform, s: Snapshot, t: Trace, reported: int, id: CheckId)
    requires Tells(py, s, CheckFor(t, reported, id))
    ensures RuleFailed(t, reported, id) <==> Breaks(py, s, id)
  {
    hide CheckFor, Applies, Meets;
    assert CheckFor(t, reported, id).id == id;
  }

  lemma FailedMeans(t: Trace, reported: int, id: CheckId)
    ensures RuleFailed(t, reported, id) <==> CheckFor(t, reported, id) == Check(id, Fail, Severity.Required)
  {
    hide CheckFor;
    assert CheckFor(t, reported, id).id == id;
  }

  /** The checks that apply to the snapshot, and those of them it meets. */
  ghost function Applicable(s: Snapshot): set<CheckId> {
    set id: CheckId | Applies(s, id)
  }

  ghost function Met(py: Platform, s: Snapshot): set<CheckId> {
    set id: CheckId | Applies(s, id) && Meets(py, s, id)
  }

  /** The percentage that `part` is of `whole`. */
  ghost predicate IsShare(percent: real, part: nat, whole: nat) {
    percent * whole as real == 100.0 * part as real
  }

  /** The score of a run is the share of the requirements it meets among those that apply to it, in percent. */
  lemma ScoreIsShareMet(py: Platform, s: Snapshot)
    requires EvaluateSnapshot(py, s).Ok?
    ensures IsShare(EvaluateSnapshot(py, s).value.score, |Met(py, s)|, |Applicable(s)|)
    ensures Applicable(s) != {} && Met(py, s) <= Applicable(s)
  {
    EvaluationOf(py, s);
    MetApply(py, s);
    hide *;
    var t, reported := Adapt(py, s).value, ReportedToolCalls(py, s.run.usage).value;
    RulesTold(py, s, t, reported);
    ScoreOver(py, t, reported, Met(py, s), Applicable(s));
  }

  lemma ScoreOver(py: Platform, t: Trace, reported: int, met: set<CheckId>, whole: set<CheckId>)
    requires Evaluate(py, t).Ok? && ReportedToolCalls(py, t.metadata.usage) == Some(reported)
    requires met <= whole && whole != {}
    requires RulesWith(t, reported, Pass) == met && RulesWith(t, reported, Fail) == whole - met
    ensures IsShare(Evaluate(py, t).value.score, |met|, |whole|)
  {
    hide Evaluate, ReportedToolCalls, RulesWith;
    assert met + (whole - met) == whole;
    Evaluation.ScoreIs(py, t);
    PartOfWhole(met, whole);
  }

  lemma PartOfWhole(part: set<CheckId>, whole: set<CheckId>)
    requires part <= whole
    ensures |whole| == |part| + |whole - part|
  {
    assert whole == part + (whole - part);
  }

  lemma RulesTold(py: Platform, s: Snapshot, t: Trace, reported: int)
    requires EvaluateSnapshot(py, s).Ok? && Adapt(py, s) == Ok(t) && ReportedToolCalls(py, s.run.usage) == Some(reported)
    ensures RulesWith(t, reported, Pass) == Met(py, s)
    ensures RulesWith(t, reported, Fail) == Applicable(s) - Met(py, s)
  {
    hide *;
    forall id: CheckId
      ensures id in RulesWith(t, reported, Pass) <==> id in Met(py, s)
      ensures id in RulesWith(t, reported, Fail) <==> id in Applicable(s) - Met(py, s)
    {
      CheckTells(py, s, id);
      ToldSets(py, s, t, reported, id);
    }
  }

  lemma MetApply(py: Platform, s: Snapshot)
    ensures Met(py, s) <= Applicable(s) && EventBudget in Applicable(s)
  {
    hide Meets;
  }

  lemma ToldSets(py: Platform, s: Snapshot, t: Trace, reported: int, id: CheckId)
    requires Tells(py, s, CheckFor(t, reported, id))
    ensures id in RulesWith(t, reported, Pass) <==> id in Met(py, s)
    ensures id in RulesWith(t, reported, Fail) <==> id in Applicable(s) - Met(py, s)
  {
    hide CheckFor, Applies, Meets;
    assert CheckFor(t, reported, id).id == id;
  }
}
