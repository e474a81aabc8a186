/** Normalizing a snapshot into a trace. */
module DeepResearchAdapter {
  import opened Counting
  import opened Prelude
  import opened Ordering
  import opened Json
  import opened Snapshot
  import opened Trace
  import opened Citations

  /** What the adapter raises, in the order it can: a span the trace schema rejects, a list it cannot iterate,
      decision evidence or a trace the schema rejects. */
  datatype AdaptError = InvalidSpan | NotIterable | InvalidDecision | InvalidTrace

  // ----- Spans -----

  predicate StartsWith(s: string, prefix: string) {
    prefix <= s
  }

  function KindOf(eventType: string): SpanKind {
    if StartsWith(eventType, "evidence.") || StartsWith(eventType, "source.") then RETRIEVER
    else if StartsWith(eventType, "verification.") then EVALUATOR
    else if StartsWith(eventType, "plan.") || StartsWith(eventType, "run.") || StartsWith(eventType, "agent.")
            || StartsWith(eventType, "iteration.") then AGENT
    else CHAIN
  }

  function EventStatus(e: Event): SpanStatus {
    if EndsWith(e.eventType, ".failed") || EndsWith(e.eventType, ".error")
       || Get(e.payload, "passed") == JBool(false) then ERROR
    else if EndsWith(e.eventType, ".completed") || EndsWith(e.eventType, ".created")
            || EndsWith(e.eventType, ".resumed") || EndsWith(e.eventType, ".added") then OK
    else UNSET
  }

  function ToolStatus(status: string): SpanStatus {
    if status == "completed" then OK else if FailedStatus(status) then ERROR else UNSET
  }

  function Digit(d: nat): char
    requires d < 10
  {
    '0' + d as char
  }

  function Decimal(n: nat): string {
    if n < 10 then [Digit(n)] else Decimal(n / 10) + [Digit(n % 10)]
  }

  datatype Record = EventRecord(ordinal: nat, event: Event) | ToolRecord(ordinal: nat, call: ToolCall) {
    function Time(): int {
      if EventRecord? then event.createdAt else call.createdAt
    }
  }

  /** The sort key (time, ordinal, record type). */
  predicate RecordLe(a: Record, b: Record) {
    || a.Time() < b.Time()
    || (a.Time() == b.Time() && (a.ordinal < b.ordinal
          || (a.ordinal == b.ordinal && (a.EventRecord? || b.ToolRecord?))))
  }

  function MaxEventId(events: seq<Event>): (m: nat)
    ensures forall e | e in events :: e.eventId <= m
  {
    if events == [] then 0
    else
      var m := MaxEventId(events[1..]);
      assert events == [events[0]] + events[1..];
      if events[0].eventId > m then events[0].eventId else m
  }

  function Records(events: seq<Event>, calls: seq<ToolCall>): (rs: seq<Record>)
    ensures |rs| == |events| + |calls|
  {
    var offset := MaxEventId(events) + 1;
    seq(|events|, i requires 0 <= i < |events| => EventRecord(events[i].eventId, events[i]))
    + seq(|calls|, i requires 0 <= i < |calls| => ToolRecord(offset + i, calls[i]))
  }

  function SpanOf(r: Record, sequence: nat): TraceSpan {
    match r
    case EventRecord(_, e) =>
      TraceSpan("event_" + Decimal(e.eventId), sequence, KindOf(e.eventType), e.eventType, EventStatus(e),
                e.createdAt, e.createdAt, EventAttributes(e.eventId, e.stage, e.payload))
    case ToolRecord(_, c) =>
      TraceSpan(c.toolCallId, sequence, TOOL, c.toolName, ToolStatus(c.status),
                c.createdAt, if c.completedAt.Some? then c.completedAt.value else c.createdAt,
                ToolAttributes(c.taskId, c.sourceMode, c.status, c.argsHash, c.resultPresent, c.errorCode))
  }

  function Spans(events: seq<Event>, calls: seq<ToolCall>): seq<TraceSpan> {
    var sorted := SortBy(Records(events, calls), RecordLe);
    seq(|sorted|, i requires 0 <= i < |sorted| => SpanOf(sorted[i], i + 1))
  }

  const MAX_ID: nat := 256

  /** A string of 1 to 256 characters. */
  predicate ShortName(s: string) {
    1 <= |s| <= MAX_ID
  }

  /** What the trace schema demands of a span. */
  predicate SpanFits(span: TraceSpan) {
    ShortName(span.spanId) && ShortName(span.name) && span.startedAt <= span.endedAt
  }

  predicate EventFits(e: Event) {
    ShortName("event_" + Decimal(e.eventId)) && ShortName(e.eventType)
  }

  predicate CallFits(c: ToolCall) {
    && ShortName(c.toolCallId) && ShortName(c.toolName)
    && (c.completedAt.Some? ==> c.createdAt <= c.completedAt.value)
  }

  /** Every record makes a span that the trace schema accepts. */
  predicate RecordsFit(events: seq<Event>, calls: seq<ToolCall>) {
    (forall e | e in events :: EventFits(e)) && (forall c | c in calls :: CallFits(c))
  }

  // ----- Decision evidence -----

  predicate IsDecisionEvent(e: Event) {
    || e.eventType == "agent.decision"
    || e.eventType == "plan.replanning"
    || (e.eventType == "verification.completed" && Get(e.payload, "passed") == JBool(true))
  }

  predicate MatchesTool(e: Event, declared: Json) {
    && (e.eventType == "tool.completed" || e.eventType == "tool.failed")
    && (!Truthy(declared) || PyEq(Get(e.payload, "tool_call_id"), declared))
  }

  /** The first later tool event that fits the declared call id. */
  function FirstToolEvent(later: seq<Event>, declared: Json): Option<Event> {
    if later == [] then None
    else if MatchesTool(later[0], declared) then Some(later[0])
    else FirstToolEvent(later[1..], declared)
  }

  /** It is the fitting event of least index, and there is none exactly when no event fits. */
  lemma {:induction false} FirstToolEventIsLeast(later: seq<Event>, declared: Json)
    ensures FirstToolEvent(later, declared) == None <==> forall i | 0 <= i < |later| :: !MatchesTool(later[i], declared)
    ensures forall i | 0 <= i < |later| && MatchesTool(later[i], declared)
                       && (forall j | 0 <= j < i :: !MatchesTool(later[j], declared)) ::
              FirstToolEvent(later, declared) == Some(later[i])
  {
    hide MatchesTool;
    if later != [] && !MatchesTool(later[0], declared) {
      FirstToolEventIsLeast(later[1..], declared);
      assert forall i | 0 < i < |later| :: later[i] == later[1..][i - 1];
    }
  }

  /** The call a decision event is linked to, given the events after it. */
  function LinkedCall(e: Event, later: seq<Event>): Json {
    var declared := Get(e.payload, "tool_call_id");
    var toolEvent := FirstToolEvent(later, declared);
    if e.eventType == "agent.decision" then
      if toolEvent.Some? then declared else JNull
    else if Truthy(declared) then declared
    else if toolEvent.Some? then Get(toolEvent.value.payload, "tool_call_id")
    else JNull
  }

  function DispositionOf(e: Event): Disposition {
    if e.eventType == "agent.decision" then CONTINUE
    else if e.eventType == "plan.replanning" then REPLAN
    else STOP
  }

  function DecisionOf(py: Platform, e: Event, later: seq<Event>): Decision {
    var id := LinkedCall(e, later);
    Decision(e.eventId, DispositionOf(e), if Truthy(id) then Some(Str(py, id)) else None)
  }

  function Decisions(py: Platform, events: seq<Event>): seq<Decision> {
    if events == [] then []
    else
      (if IsDecisionEvent(events[0]) then [DecisionOf(py, events[0], events[1..])] else [])
      + Decisions(py, events[1..])
  }

  /** What the trace schema demands of decision evidence, beyond the free text the adapter cuts to size. */
  predicate DecisionFits(d: Decision) {
    && ShortName("decision_event_" + Decimal(d.eventId))
    && (d.toolCallId.Some? ==> |d.toolCallId.value| <= MAX_ID)
  }

  predicate DecisionsFit(py: Platform, events: seq<Event>) {
    forall d | d in Decisions(py, events) :: DecisionFits(d)
  }

  function DecisionCount(events: seq<Event>): nat {
    Count(events, IsDecisionEvent)
  }

  /** One decision per decision event, in event order: the one for event `i` comes after as many decisions as
      there are decision events before it. */
  lemma {:induction false} DecisionsAt(py: Platform, events: seq<Event>)
    ensures |Decisions(py, events)| == DecisionCount(events)
    ensures forall i | 0 <= i < |events| && IsDecisionEvent(events[i]) ::
              && DecisionCount(events[..i]) < DecisionCount(events)
              && Decisions(py, events)[DecisionCount(events[..i])] == DecisionOf(py, events[i], events[i + 1..])
  {
    hide DecisionOf, IsDecisionEvent;
    if events != [] {
      var rest := events[1..];
      DecisionsAt(py, rest);
      forall i | 0 <= i < |events| && IsDecisionEvent(events[i])
        ensures DecisionCount(events[..i]) < DecisionCount(events)
        ensures Decisions(py, events)[DecisionCount(events[..i])] == DecisionOf(py, events[i], events[i + 1..])
      {
        if i > 0 {
          assert rest[i - 1] == events[i] && events[..i][1..] == rest[..i - 1] && rest[i..] == events[i + 1..];
        }
      }
    }
  }

  /** The loop that collects decision evidence. */
  method CollectDecisions(py: Platform, events: seq<Event>) returns (decisions: seq<Decision>)
    ensures decisions == Decisions(py, events)
    ensures |decisions| == DecisionCount(events)
    ensures forall i | 0 <= i < |events| && IsDecisionEvent(events[i]) ::
              && DecisionCount(events[..i]) < |decisions|
              && decisions[DecisionCount(events[..i])] == DecisionOf(py, events[i], events[i + 1..])
  {
    hide DecisionOf, IsDecisionEvent, DecisionCount;
    decisions := [];
    for i := 0 to |events|
      invariant decisions + Decisions(py, events[i..]) == Decisions(py, events)
    {
      assert events[i..][0] == events[i] && events[i..][1..] == events[i + 1..];
      if IsDecisionEvent(events[i]) {
        decisions := decisions + [DecisionOf(py, events[i], events[i + 1..])];
      }
    }
    DecisionsAt(py, events);
  }

  // ----- Tool health -----

  predicate VerifiedTerminal(run: Run, contracts: seq<Contract>) {
    && run.status == "completed"
    && (exists c | c in contracts :: c.required)
    && (forall c | c in contracts && c.required :: c.passed == Some(true))
  }

  function EvidenceCallIds(evidence: seq<Evidence>): set<string> {
    set e | e in evidence && NonEmpty(e.toolCallId) :: e.toolCallId.value
  }

  predicate IsRecoveryEvent(e: Event) {
    e.eventType == "tool.recovery_confirmed"
  }

  function RecoveredId(py: Platform, e: Event): string {
    StrOrEmpty(py, Get(e.payload, "failed_tool_call_id"))
  }

  predicate IsFailedCall(calls: seq<ToolCall>, id: string) {
    exists c | c in calls :: c.toolCallId == id && FailedStatus(c.status)
  }

  /** The event names completed, evidence-bearing calls of the failed call's task. */
  predicate ConfirmsRecovery(py: Platform, calls: seq<ToolCall>, evidenceIds: set<string>, e: Event, failed: ToolCall) {
    && IsRecoveryEvent(e) && RecoveredId(py, e) == failed.toolCallId
    && Iterate(Get(e.payload, "recovered_by_tool_call_ids")).Some?
    && exists x, c | x in Iterate(Get(e.payload, "recovered_by_tool_call_ids")).value && c in calls ::
         c.toolCallId == Str(py, x) && c.status == "completed" && c.taskId == failed.taskId
         && c.toolCallId in evidenceIds
  }

  predicate ExplicitlyRecovered(py: Platform, events: seq<Event>, calls: seq<ToolCall>, evidenceIds: set<string>,
                                failed: ToolCall) {
    exists e | e in events :: ConfirmsRecovery(py, calls, evidenceIds, e, failed)
  }

  predicate Supersedes(c: ToolCall, failed: ToolCall) {
    c.status == "completed" && c.taskId == failed.taskId && c.createdAt > failed.createdAt
  }

  predicate LaterSuccess(calls: seq<ToolCall>, failed: ToolCall) {
    exists c | c in calls :: Supersedes(c, failed)
  }

  predicate OutcomeRecovered(calls: seq<ToolCall>, evidenceIds: set<string>, failed: ToolCall) {
    exists c | c in calls :: c.status == "completed" && c.resultPresent && c.toolCallId in evidenceIds
                             && c.taskId == failed.taskId
  }

  predicate Recovered(py: Platform, terminal: bool, events: seq<Event>, calls: seq<ToolCall>,
                      evidenceIds: set<string>, failed: ToolCall) {
    || (terminal && ExplicitlyRecovered(py, events, calls, evidenceIds, failed))
    || LaterSuccess(calls, failed)
    || (terminal && OutcomeRecovered(calls, evidenceIds, failed))
  }

  function FailedCount(calls: seq<ToolCall>): nat {
    Count(calls, (c: ToolCall) => FailedStatus(c.status))
  }

  function RecoveredCount(py: Platform, terminal: bool, events: seq<Event>, calls: seq<ToolCall>,
                          evidenceIds: set<string>): nat {
    Count(calls, (c: ToolCall) => FailedStatus(c.status) && Recovered(py, terminal, events, calls, evidenceIds, c))
  }

  /** Python iterates the recovery list only for events that name a failed call. */
  predicate RecoveryIterable(py: Platform, terminal: bool, events: seq<Event>, calls: seq<ToolCall>) {
    terminal ==>
      forall e | e in events && IsRecoveryEvent(e) && IsFailedCall(calls, RecoveredId(py, e)) ::
        Iterate(Get(e.payload, "recovered_by_tool_call_ids")).Some?
  }

  // ----- Other metrics -----

  function CallKey(c: ToolCall): string {
    (if c.taskId.Some? then c.taskId.value else "None") + "|" + c.toolName + "|" + c.sourceMode + "|"
    + (if c.argsHash.Some? then c.argsHash.value else "")
  }

  predicate Fingerprinted(c: ToolCall) {
    NonEmpty(c.argsHash)
  }

  /** Fingerprinted calls beyond the first of each fingerprint. */
  function DuplicateFingerprints(calls: seq<ToolCall>): nat {
    if calls == [] then 0
    else
      var n := |calls| - 1;
      DuplicateFingerprints(calls[..n]) + if RepeatsEarlier(calls[..n], calls[n]) then 1 else 0
  }

  predicate RepeatsEarlier(earlier: seq<ToolCall>, c: ToolCall) {
    Fingerprinted(c) && exists d | d in earlier :: Fingerprinted(d) && CallKey(d) == CallKey(c)
  }

  predicate ReportRepairable(name: string) {
    name in {"citation_integrity", "claim_support", "evidence_card_coverage", "report_consistency",
             "required_section", "source_diversity"}
  }

  predicate FailedVerification(e: Event) {
    e.eventType == "verification.completed" && Get(e.payload, "passed") == JBool(false)
  }

  function FailureNames(py: Platform, e: Event): Option<set<string>> {
    var items := Iterate(Get(e.payload, "failures"));
    if items.None? then None else Some(set x | x in items.value && Truthy(x) :: Str(py, x))
  }

  /** A report-repairable verification failure answered by a full replan. */
  predicate Misrouted(py: Platform, e: Event) {
    && FailedVerification(e) && FailureNames(py, e).Some?
    && FailureNames(py, e).value != {}
    && (forall name | name in FailureNames(py, e).value :: ReportRepairable(name))
    && Get(e.payload, "recovery_action") == JStr("replan")
  }

  predicate VerificationIterable(py: Platform, events: seq<Event>) {
    forall e | e in events && FailedVerification(e) :: FailureNames(py, e).Some?
  }

  function CitedIds(report: Option<string>): seq<string> {
    FindCitations(if report.Some? then report.value else "")
  }

  function ValidCitations(report: Option<string>, evidence: seq<Evidence>): nat {
    Count(CitedIds(report), (id: string) => id in EvidenceIds(evidence))
  }

  function RequiredTotal(contracts: seq<Contract>): nat {
    Count(contracts, (c: Contract) => c.required)
  }

  function RequiredPassed(contracts: seq<Contract>): nat {
    Count(contracts, (c: Contract) => c.required && c.passed == Some(true))
  }

  function CheckpointRate(checkpoints: seq<Checkpoint>): Option<real> {
    if checkpoints == [] then None
    else Some(Count(checkpoints, (c: Checkpoint) => c.integrityValid) as real / |checkpoints| as real)
  }

  predicate SourceLeakage(run: Run, evidence: seq<Evidence>) {
    exists e | e in evidence :: e.sourceMode != run.sourceMode
  }

  function FetchFailures(evidence: seq<Evidence>): set<string> {
    set e | e in evidence && e.pageFetchStatus == Some("failed")
      :: if NonEmpty(e.pageFetchErrorCode) then e.pageFetchErrorCode.value else "unspecified"
  }

  function MetadataOf(py: Platform, s: Snapshot): Metadata {
    var terminal := VerifiedTerminal(s.run, s.contracts);
    var failed := FailedCount(s.toolCalls);
    var recovered := RecoveredCount(py, terminal, s.events, s.toolCalls, EvidenceCallIds(s.evidence));
    Metadata(
      s.run.runId, s.run.sessionId, s.run.sourceMode, s.run.workflowMode,
      s.run.currentStage, s.run.errorCode, s.run.usage,
      set c | c in s.contracts :: c.kind, RequiredTotal(s.contracts), RequiredPassed(s.contracts),
      |CitedIds(s.report)|, ValidCitations(s.report, s.evidence), |s.evidence|,
      SourceLeakage(s.run, s.evidence),
      |s.checkpoints|, CheckpointRate(s.checkpoints),
      |s.toolCalls|, failed, recovered, failed - recovered,
      DuplicateFingerprints(s.toolCalls), Count(s.events, (e: Event) => Misrouted(py, e)),
      FetchFailures(s.evidence), s.provenance)
  }

  /** What the trace schema demands of the trace itself. */
  predicate EnvelopeFits(run: Run, task: Option<string>) {
    && ShortName("deepresearch_" + run.runId) && 1 <= |run.status| <= 64
    && (task.Some? ==> |task.value| <= 4096)
  }

  /** The normalized trace, or the error the adapter raises. */
  function Adapt(py: Platform, s: Snapshot): Result<Trace, AdaptError> {
    if !RecordsFit(s.events, s.toolCalls) then
      Err(InvalidSpan)
    else if !RecoveryIterable(py, VerifiedTerminal(s.run, s.contracts), s.events, s.toolCalls)
            || !VerificationIterable(py, s.events) then
      Err(NotIterable)
    else if !DecisionsFit(py, s.events) then
      Err(InvalidDecision)
    else if !EnvelopeFits(s.run, s.task) then
      Err(InvalidTrace)
    else
      var started := if s.run.startedAt.Some? then s.run.startedAt.value else s.run.createdAt;
      var ended := if s.run.completedAt.Some? then s.run.completedAt.value else s.run.updatedAt;
      Ok(Trace("deepresearch_" + s.run.runId, s.run.status, s.task, started,
               if started <= ended then ended else started,
               Spans(s.events, s.toolCalls), Decisions(py, s.events), MetadataOf(py, s)))
  }
}
