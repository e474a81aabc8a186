/** The exported DeepResearch run snapshot. */
module Snapshot {
  import opened Prelude
  import opened Json

  datatype Run = Run(
    runId: string, sessionId: string, sourceMode: string, workflowMode: string, status: string,
    currentStage: Option<string>, usage: map<string, Json>, errorCode: Option<string>,
    createdAt: int, startedAt: Option<int>, completedAt: Option<int>, updatedAt: int)

  datatype Event = Event(
    eventId: nat, eventType: string, stage: Option<string>, payload: map<string, Json>, createdAt: int)

  datatype ToolCall = ToolCall(
    toolCallId: string, taskId: Option<string>, toolName: string, sourceMode: string, status: string,
    argsHash: Option<string>, resultPresent: bool, errorCode: Option<string>,
    createdAt: int, completedAt: Option<int>)

  datatype Evidence = Evidence(
    evidenceId: string, toolCallId: Option<string>, sourceMode: string,
    pageFetchStatus: Option<string>, pageFetchErrorCode: Option<string>)

  datatype Contract = Contract(checkId: string, kind: string, required: bool, passed: Option<bool>)

  datatype Checkpoint = Checkpoint(
    checkpointId: string, version: nat, stage: string, stateHash: string, integrityValid: bool, createdAt: int)

  datatype Snapshot = Snapshot(
    run: Run, task: Option<string>, report: Option<string>, events: seq<Event>, toolCalls: seq<ToolCall>,
    evidence: seq<Evidence>, contracts: seq<Contract>, checkpoints: seq<Checkpoint>,
    provenance: map<string, Json>)

  ghost predicate UniqueToolIds(calls: seq<ToolCall>) {
    forall i, j | 0 <= i < j < |calls| :: calls[i].toolCallId != calls[j].toolCallId
  }

  ghost predicate AscendingEvents(events: seq<Event>) {
    && (forall e | e in events :: e.eventId >= 1)
    && (forall i, j | 0 <= i < j < |events| :: events[i].eventId < events[j].eventId)
  }

  /** What validating a snapshot demands beyond field types: the identity rules. */
  ghost predicate Valid(s: Snapshot) {
    AscendingEvents(s.events) && UniqueToolIds(s.toolCalls)
  }

  function ToolIds(calls: seq<ToolCall>): set<string> {
    set c | c in calls :: c.toolCallId
  }

  function EvidenceIds(evidence: seq<Evidence>): set<string> {
    set e | e in evidence :: e.evidenceId
  }

  predicate FailedStatus(status: string) {
    status == "failed" || status == "cancelled" || status == "denied"
  }

  /** `x` when it is a non-empty string: Python's truthiness of an optional string. */
  predicate NonEmpty(x: Option<string>) {
    x.Some? && x.value != ""
  }
}
