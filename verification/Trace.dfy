/** The normalized trace of a DeepResearch run, as far as the evaluator's checks read it. */
module Trace {
  import opened Prelude
  import opened Json

  datatype SpanKind = AGENT | TOOL | RETRIEVER | EVALUATOR | CHAIN

  datatype SpanStatus = OK | ERROR | UNSET

  datatype Attributes =
    | EventAttributes(eventId: nat, stage: Option<string>, payload: map<string, Json>)
    | ToolAttributes(taskId: Option<string>, sourceMode: string, status: string, argsHash: Option<string>,
                     resultPresent: bool, errorCode: Option<string>)

  datatype TraceSpan = TraceSpan(
    spanId: string, sequence: nat, kind: SpanKind, name: string, status: SpanStatus,
    startedAt: int, endedAt: int, attributes: Attributes)

  datatype Disposition = CONTINUE | REPLAN | STOP

  /** Decision evidence; its free text is not modelled. */
  datatype Decision = Decision(eventId: nat, disposition: Disposition, toolCallId: Option<string>)

  datatype Metadata = Metadata(
    runId: string, sessionId: string, sourceMode: string, workflowMode: string,
    currentStage: Option<string>, errorCode: Option<string>, usage: map<string, Json>,
    contractKinds: set<string>, requiredTotal: nat, requiredPassed: nat,
    citationCount: nat, validCitationCount: nat, evidenceCount: nat,
    sourceLeakage: bool, checkpointCount: nat, checkpointRate: Option<real>,
    toolCallCount: nat, failedToolCalls: nat, recoveredToolFailures: nat, unrecoveredToolFailures: int,
    duplicateFingerprints: nat, misroutedReplans: nat,
    fetchFailureCategories: set<string>, provenance: map<string, Json>)

  datatype Trace = Trace(
    traceId: string, state: string, task: Option<string>, startedAt: int, endedAt: int,
    spans: seq<TraceSpan>, decisions: seq<Decision>, metadata: Metadata)
}
