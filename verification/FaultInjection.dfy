/** The ten snapshot mutations of the fault suite. */
module FaultInjection {
  import opened Prelude
  import opened Json
  import opened Secrets
  import opened Snapshot
  import opened Citations
  import opened DeepResearchAdapter
  import opened Evaluation

  datatype Fault =
    | CitationCorruption | SourceModeLeakage | CheckpointCorruption | RequiredContractFailure | ToolAccountingDrift
    | ToolResultLoss | NonTerminalRun | DecisionToolLinkLoss | SecretLeakage | DuplicateToolCall

  /** EXPECTED_CHECKS. */
  function ExpectedCheck(f: Fault): CheckId {
    match f
    case CitationCorruption => CitationsValid
    case SourceModeLeakage => SourceIsolation
    case CheckpointCorruption => CheckpointsIntact
    case RequiredContractFailure => RequiredContractsPass
    case ToolAccountingDrift => ToolAccountingConsistent
    case ToolResultLoss => ToolResultRecorded
    case NonTerminalRun => TerminalDisposition
    case DecisionToolLinkLoss => ToolDecisionLink
    case SecretLeakage => NoRawSecret
    case DuplicateToolCall => DuplicateToolCallsAbsent
  }

  datatype InjectError = MissingRecord | UsageNotObject | InvalidSnapshot

  /** `run.setdefault("usage", {}).setdefault("usage", {})`. */
  function NestedUsage(usage: map<string, Json>): Result<map<string, Json>, InjectError> {
    if "usage" !in usage then Ok(map[])
    else
      match usage["usage"]
      case JObj(inner) => Ok(inner)
      case _ => Err(UsageNotObject)
  }

  /** The usage record with `tool_calls` overwritten. */
  function WithToolCalls(usage: map<string, Json>, inner: map<string, Json>, n: nat): map<string, Json> {
    usage["usage" := JObj(inner["tool_calls" := JNum(n as real)])]
  }

  function FirstRequired(contracts: seq<Contract>): (i: nat)
    ensures i <= |contracts|
    ensures i < |contracts| ==> contracts[i].required
    ensures forall j | 0 <= j < i :: !contracts[j].required
  {
    if contracts == [] then 0
    else if contracts[0].required then 0
    else
      assert forall j | 1 <= j < |contracts| :: contracts[j] == contracts[1..][j - 1];
      1 + FirstRequired(contracts[1..])
  }

  /** The events that remain once completed tool calls are dropped. */
  function DropCompleted(events: seq<Event>): seq<Event> {
    if events == [] then []
    else (if events[0].eventType != "tool.completed" then [events[0]] else []) + DropCompleted(events[1..])
  }

  function SecretEvent(s: Snapshot): Event {
    Event(MaxEventId(s.events) + 1, "debug.recorded", Some("completed"),
          map["authorization" := JStr(INJECTED_SECRET)], s.run.updatedAt)
  }

  function Duplicate(c: ToolCall): ToolCall {
    c.(toolCallId := c.toolCallId + "_duplicate")
  }

  function Text(report: Option<string>): string {
    if report.Some? then report.value else ""
  }

  /** The mutant of `s`, or the error raised for a snapshot that cannot carry the fault. */
  function Injected(s: Snapshot, f: Fault): Result<Snapshot, InjectError> {
    match f
    case CitationCorruption =>
      Ok(s.(report := Some(Text(s.report) + CitationText(INJECTED_ID))))
    case SourceModeLeakage =>
      if s.evidence == [] then Err(MissingRecord) else
      Ok(s.(evidence := s.evidence[0 := s.evidence[0].(sourceMode :=
              if s.run.sourceMode == "web" then "graphrag" else "web")]))
    case CheckpointCorruption =>
      if s.checkpoints == [] then Err(MissingRecord) else
      Ok(s.(checkpoints := s.checkpoints[0 := s.checkpoints[0].(integrityValid := false)]))
    case RequiredContractFailure =>
      var i := FirstRequired(s.contracts);
      if i == |s.contracts| then Err(MissingRecord) else
      Ok(s.(contracts := s.contracts[i := s.contracts[i].(passed := Some(false))]))
    case ToolAccountingDrift =>
      (match NestedUsage(s.run.usage)
       case Err(e) => Err(e)
       case Ok(inner) => Ok(s.(run := s.run.(usage := WithToolCalls(s.run.usage, inner, |s.toolCalls| + 7)))))
    case ToolResultLoss =>
      if s.toolCalls == [] then Err(MissingRecord) else
      Ok(s.(toolCalls := s.toolCalls[0 := s.toolCalls[0].(status := "running", resultPresent := false, completedAt := None)]))
    case NonTerminalRun =>
      Ok(s.(run := s.run.(status := "active", currentStage := Some("executing"), completedAt := None)))
    case DecisionToolLinkLoss =>
      Ok(s.(events := DropCompleted(s.events)))
    case SecretLeakage =>
      Ok(s.(events := s.events + [SecretEvent(s)]))
    case DuplicateToolCall =>
      if s.toolCalls == [] then Err(MissingRecord) else
      match NestedUsage(s.run.usage)
      case Err(e) => Err(e)
      case Ok(inner) =>
        var calls := s.toolCalls + [Duplicate(s.toolCalls[0])];
        if Duplicate(s.toolCalls[0]).toolCallId in ToolIds(s.toolCalls) then Err(InvalidSnapshot) else
        Ok(s.(toolCalls := calls, run := s.run.(usage := WithToolCalls(s.run.usage, inner, |calls|))))
  }

  // ----- What a mutation may touch -----

  /** `b` is `a` with at most its item `i` replaced. */
  ghost predicate OnlyItem<T>(a: seq<T>, b: seq<T>, i: nat) {
    |a| == |b| && i < |a| && forall j | 0 <= j < |a| && j != i :: a[j] == b[j]
  }

  /** The run's nested tool-call count is `n`, and nothing else in the usage record changed. */
  ghost predicate Recounted(before: map<string, Json>, after: map<string, Json>, n: nat) {
    && before - {"usage"} == after - {"usage"}
    && "usage" in after && after["usage"].JObj?
    && var inner := after["usage"].fields;
       && "tool_calls" in inner && inner["tool_calls"] == JNum(n as real)
       && inner - {"tool_calls"}
          == (if "usage" in before && before["usage"].JObj? then before["usage"].fields else map[]) - {"tool_calls"}
  }

  /** Apart from the one record that `f` names, and in it the one entry, the mutant `m` is `s`. */
  ghost predicate Framed(s: Snapshot, f: Fault, m: Snapshot) {
    match f
    case CitationCorruption =>
      m == s.(report := m.report) && m.report == Some(Text(s.report) + " [ev_injected_missing]")
    case SourceModeLeakage =>
      && m == s.(evidence := m.evidence) && OnlyItem(s.evidence, m.evidence, 0)
      && m.evidence[0] == s.evidence[0].(sourceMode := m.evidence[0].sourceMode)
      && (s.run.sourceMode == "web" ==> m.evidence[0].sourceMode == "graphrag")
      && (s.run.sourceMode != "web" ==> m.evidence[0].sourceMode == "web")
    case CheckpointCorruption =>
      && m == s.(checkpoints := m.checkpoints) && OnlyItem(s.checkpoints, m.checkpoints, 0)
      && m.checkpoints[0] == s.checkpoints[0].(integrityValid := false)
    case RequiredContractFailure =>
      && m == s.(contracts := m.contracts)
      && exists i: nat ::
           && OnlyItem(s.contracts, m.contracts, i) && s.contracts[i].required
           && (forall j | 0 <= j < i :: !s.contracts[j].required)
           && m.contracts[i] == s.contracts[i].(passed := Some(false))
    case ToolAccountingDrift =>
      && m == s.(run := s.run.(usage := m.run.usage))
      && Recounted(s.run.usage, m.run.usage, |s.toolCalls| + 7)
    case ToolResultLoss =>
      && m == s.(toolCalls := m.toolCalls) && OnlyItem(s.toolCalls, m.toolCalls, 0)
      && m.toolCalls[0] == s.toolCalls[0].(status := "running", resultPresent := false, completedAt := None)
    case NonTerminalRun =>
      m == s.(run := s.run.(status := "active", currentStage := Some("executing"), completedAt := None))
    case DecisionToolLinkLoss =>
      && m == s.(events := m.events)
      && (forall e :: multiset(m.events)[e] == if e.eventType == "tool.completed" then 0 else multiset(s.events)[e])
      && (AscendingEvents(s.events) ==> AscendingEvents(m.events))
    case SecretLeakage =>
      && m == s.(events := m.events) && |m.events| == |s.events| + 1 && m.events[..|s.events|] == s.events
      && var added := m.events[|s.events|];
         && (forall e | e in s.events :: e.eventId < added.eventId)
         && (added.eventId == 1 || exists e | e in s.events :: e.eventId + 1 == added.eventId)
         && added.eventType == "debug.recorded" && added.stage == Some("completed") && added.createdAt == s.run.updatedAt
         && added.payload == map["authorization" := JStr("Bearer TESTTOKEN1234567890")]
    case DuplicateToolCall =>
      && m == s.(toolCalls := m.toolCalls, run := s.run.(usage := m.run.usage))
      && s.toolCalls != [] && |m.toolCalls| == |s.toolCalls| + 1 && m.toolCalls[..|s.toolCalls|] == s.toolCalls
      && m.toolCalls[|s.toolCalls|] == s.toolCalls[0].(toolCallId := s.toolCalls[0].toolCallId + "_duplicate")
      && (forall c | c in s.toolCalls :: c.toolCallId != m.toolCalls[|s.toolCalls|].toolCallId)
      && Recounted(s.run.usage, m.run.usage, |m.toolCalls|)
  }

  /** The record a fault needs is there. */
  ghost predicate HasRecord(s: Snapshot, f: Fault) {
    && (f == SourceModeLeakage ==> s.evidence != [])
    && (f == CheckpointCorruption ==> s.checkpoints != [])
    && (f == RequiredContractFailure ==> exists c | c in s.contracts :: c.required)
    && (f == ToolResultLoss || f == DuplicateToolCall ==> s.toolCalls != [])
  }

  /** The nested usage record can be written. */
  ghost predicate UsageWritable(usage: map<string, Json>) {
    "usage" in usage ==> usage["usage"].JObj?
  }

  ghost predicate CopiedIdTaken(calls: seq<ToolCall>) {
    calls != [] && exists c | c in calls :: c.toolCallId == calls[0].toolCallId + "_duplicate"
  }

  lemma RecountedUsage(usage: map<string, Json>, n: nat)
    requires NestedUsage(usage).Ok?
    ensures Recounted(usage, WithToolCalls(usage, NestedUsage(usage).value, n), n)
  {
    var inner := NestedUsage(usage).value;
    var after := WithToolCalls(usage, inner, n);
    assert after["usage"] == JObj(inner["tool_calls" := JNum(n as real)]);
  }

  lemma FirstRequiredFrame(contracts: seq<Contract>)
    ensures FirstRequired(contracts) < |contracts| <==> exists c | c in contracts :: c.required
  {
    if FirstRequired(contracts) < |contracts| {
      assert contracts[FirstRequired(contracts)] in contracts;
    }
  }

  lemma {:induction false} DropCompletedCounts(events: seq<Event>, e: Event)
    ensures multiset(DropCompleted(events))[e] == if e.eventType == "tool.completed" then 0 else multiset(events)[e]
  {
    if events != [] {
      assert events == [events[0]] + events[1..];
      DropCompletedCounts(events[1..], e);
    }
  }

  lemma LinkLossFrame(s: Snapshot, m: Snapshot)
    requires Injected(s, DecisionToolLinkLoss) == Ok(m)
    ensures Framed(s, DecisionToolLinkLoss, m)
  {
    forall e ensures multiset(m.events)[e] == if e.eventType == "tool.completed" then 0 else multiset(s.events)[e] {
      DropCompletedCounts(s.events, e);
    }
    if AscendingEvents(s.events) {
      DropCompletedAscends(s.events);
    }
  }

  lemma DuplicateFrame(s: Snapshot, m: Snapshot)
    requires Injected(s, DuplicateToolCall) == Ok(m)
    ensures Framed(s, DuplicateToolCall, m)
  {
    hide WithToolCalls, NestedUsage, Recounted;
    RecountedUsage(s.run.usage, |m.toolCalls|);
    assert m.toolCalls[|s.toolCalls|] == Duplicate(s.toolCalls[0]);
  }

  lemma ContractFrame(s: Snapshot, m: Snapshot)
    requires Injected(s, RequiredContractFailure) == Ok(m)
    ensures Framed(s, RequiredContractFailure, m)
  {
    assert OnlyItem(s.contracts, m.contracts, FirstRequired(s.contracts));
  }

  lemma FirstItemFrame(s: Snapshot, f: Fault, m: Snapshot)
    requires f in {SourceModeLeakage, CheckpointCorruption, ToolResultLoss} && Injected(s, f) == Ok(m)
    ensures Framed(s, f, m)
  {
  }

  lemma FieldFrame(s: Snapshot, f: Fault, m: Snapshot)
    requires f in {CitationCorruption, NonTerminalRun, SecretLeakage} && Injected(s, f) == Ok(m)
    ensures Framed(s, f, m)
  {
    assert CitationText(INJECTED_ID) == " [ev_injected_missing]";
    MaxIsReached(s.events);
  }

  lemma {:induction false} MaxIsReached(events: seq<Event>)
    ensures MaxEventId(events) == 0 || exists e | e in events :: e.eventId == MaxEventId(events)
  {
    if events != [] {
      MaxIsReached(events[1..]);
      assert events[0] in events && forall e | e in events[1..] :: e in events;
    }
  }

  lemma AccountingFrame(s: Snapshot, m: Snapshot)
    requires Injected(s, ToolAccountingDrift) == Ok(m)
    ensures Framed(s, ToolAccountingDrift, m)
  {
    hide WithToolCalls, NestedUsage, Recounted;
    RecountedUsage(s.run.usage, |s.toolCalls| + 7);
  }

  /** A mutant differs from its original in the one entry its fault names, and in nothing else. */
  lemma InjectionFrame(s: Snapshot, f: Fault)
    requires Injected(s, f).Ok?
    ensures Framed(s, f, Injected(s, f).value)
  {
    hide *;
    var m := Injected(s, f).value;
    match f {
      case RequiredContractFailure => ContractFrame(s, m);
      case ToolAccountingDrift => AccountingFrame(s, m);
      case DecisionToolLinkLoss => LinkLossFrame(s, m);
      case DuplicateToolCall => DuplicateFrame(s, m);
      case CitationCorruption => FieldFrame(s, f, m);
      case NonTerminalRun => FieldFrame(s, f, m);
      case SecretLeakage => FieldFrame(s, f, m);
      case _ => FirstItemFrame(s, f, m);
    }
  }

  /** Injection raises exactly when the record is missing, the usage record cannot be written, or the id of
      the copied call is taken; the first of these that holds is the error. */
  lemma InjectionRaises(s: Snapshot, f: Fault)
    ensures Injected(s, f).Ok? <==>
              && HasRecord(s, f)
              && (f in {ToolAccountingDrift, DuplicateToolCall} ==> UsageWritable(s.run.usage))
              && (f == DuplicateToolCall ==> !CopiedIdTaken(s.toolCalls))
    ensures Injected(s, f) == Err(MissingRecord) <==> !HasRecord(s, f)
    ensures Injected(s, f) == Err(UsageNotObject) <==>
              HasRecord(s, f) && f in {ToolAccountingDrift, DuplicateToolCall} && !UsageWritable(s.run.usage)
    ensures Injected(s, f) == Err(InvalidSnapshot) <==>
              HasRecord(s, f) && f == DuplicateToolCall && UsageWritable(s.run.usage) && CopiedIdTaken(s.toolCalls)
  {
    hide WithToolCalls, DropCompleted;
    FirstRequiredFrame(s.contracts);
  }

  method FindRequired(contracts: seq<Contract>) returns (i: nat)
    ensures i == FirstRequired(contracts)
  {
    i := 0;
    while i < |contracts| && !contracts[i].required
      invariant i <= |contracts| && forall j | 0 <= j < i :: !contracts[j].required
    {
      i := i + 1;
    }
  }

  method KeepOthers(events: seq<Event>) returns (kept: seq<Event>)
    ensures kept == DropCompleted(events)
  {
    kept := [];
    for i := 0 to |events|
      invariant kept + DropCompleted(events[i..]) == DropCompleted(events)
    {
      assert events[i..][0] == events[i] && events[i..][1..] == events[i + 1..];
      if events[i].eventType != "tool.completed" {
        kept := kept + [events[i]];
      }
    }
  }

  /** The injector: a deep copy of the payload, mutated in place and validated again. */
  method InjectFault(payload: Snapshot, f: Fault) returns (r: Result<Snapshot, InjectError>)
    ensures r == Injected(payload, f)
    ensures r.Ok? ==> Framed(payload, f, r.value)
    ensures r.Err? <==>
              || !HasRecord(payload, f)
              || (f in {ToolAccountingDrift, DuplicateToolCall} && !UsageWritable(payload.run.usage))
              || (f == DuplicateToolCall && CopiedIdTaken(payload.toolCalls))
  {
    r := Mutate(payload, f);
    InjectionRaises(payload, f);
    if r.Ok? {
      InjectionFrame(payload, f);
    }
  }

  /** The mutation itself, step by step. */
  method Mutate(payload: Snapshot, f: Fault) returns (r: Result<Snapshot, InjectError>)
    ensures r == Injected(payload, f)
  {
    var mutated := payload;
    match f {
      case CitationCorruption =>
        mutated := mutated.(report := Some(Text(mutated.report) + CitationText(INJECTED_ID)));
      case SourceModeLeakage =>
        if mutated.evidence == [] {
          return Err(MissingRecord);
        }
        var leaked := if mutated.run.sourceMode == "web" then "graphrag" else "web";
        mutated := mutated.(evidence := mutated.evidence[0 := mutated.evidence[0].(sourceMode := leaked)]);
      case CheckpointCorruption =>
        if mutated.checkpoints == [] {
          return Err(MissingRecord);
        }
        mutated := mutated.(checkpoints := mutated.checkpoints[0 := mutated.checkpoints[0].(integrityValid := false)]);
      case RequiredContractFailure =>
        var i := FindRequired(mutated.contracts);
        if i == |mutated.contracts| {
          return Err(MissingRecord);
        }
        mutated := mutated.(contracts := mutated.contracts[i := mutated.contracts[i].(passed := Some(false))]);
      case ToolAccountingDrift =>
        var nested := NestedUsage(mutated.run.usage);
        if nested.Err? {
          return Err(nested.error);
        }
        var usage := WithToolCalls(mutated.run.usage, nested.value, |mutated.toolCalls| + 7);
        mutated := mutated.(run := mutated.run.(usage := usage));
      case ToolResultLoss =>
        if mutated.toolCalls == [] {
          return Err(MissingRecord);
        }
        var lost := mutated.toolCalls[0].(status := "running", resultPresent := false, completedAt := None);
        mutated := mutated.(toolCalls := mutated.toolCalls[0 := lost]);
      case NonTerminalRun =>
        mutated := mutated.(run := mutated.run.(status := "active", currentStage := Some("executing"), completedAt := None));
      case DecisionToolLinkLoss =>
        var kept := KeepOthers(mutated.events);
        mutated := mutated.(events := kept);
      case SecretLeakage =>
        mutated := mutated.(events := mutated.events + [SecretEvent(mutated)]);
      case DuplicateToolCall =>
        if mutated.toolCalls == [] {
          return Err(MissingRecord);
        }
        mutated := mutated.(toolCalls := mutated.toolCalls + [Duplicate(mutated.toolCalls[0])]);
        var nested := NestedUsage(mutated.run.usage);
        if nested.Err? {
          return Err(nested.error);
        }
        mutated := mutated.(run := mutated.run.(usage := WithToolCalls(mutated.run.usage, nested.value, |mutated.toolCalls|)));
        if mutated.toolCalls[|mutated.toolCalls| - 1].toolCallId in ToolIds(payload.toolCalls) {
          return Err(InvalidSnapshot);
        }
    }
    return Ok(mutated);
  }

  lemma {:induction false} DropCompletedMembers(events: seq<Event>)
    ensures forall e :: e in DropCompleted(events) ==> e in events
  {
    if events != [] {
      DropCompletedMembers(events[1..]);
    }
  }

  lemma AscendingTail(events: seq<Event>)
    requires AscendingEvents(events) && events != []
    ensures AscendingEvents(events[1..]) && events[0].eventId >= 1
    ensures forall e | e in events[1..] :: events[0].eventId < e.eventId
  {
  }

  lemma AscendingCons(first: Event, rest: seq<Event>)
    requires AscendingEvents(rest) && first.eventId >= 1 && forall e | e in rest :: first.eventId < e.eventId
    ensures AscendingEvents([first] + rest)
  {
    assert forall i | 0 <= i < |rest| :: rest[i] in rest;
  }

  lemma {:induction false} DropCompletedAscends(events: seq<Event>)
    requires AscendingEvents(events)
    ensures AscendingEvents(DropCompleted(events))
  {
    if events != [] {
      hide AscendingEvents;
      AscendingTail(events);
      DropCompletedAscends(events[1..]);
      DropCompletedMembers(events[1..]);
      AscendingCons(events[0], DropCompleted(events[1..]));
      assert DropCompleted(events) == [events[0]] + DropCompleted(events[1..])
             || DropCompleted(events) == DropCompleted(events[1..]);
    }
  }

  lemma MaxIsNew(events: seq<Event>, e: Event)
    requires AscendingEvents(events) && e.eventId == MaxEventId(events) + 1
    ensures AscendingEvents(events + [e])
  {
    assert forall i | 0 <= i < |events| :: events[i] in events;
  }

  lemma NewIdStaysUnique(calls: seq<ToolCall>, c: ToolCall)
    requires UniqueToolIds(calls) && c.toolCallId !in ToolIds(calls)
    ensures UniqueToolIds(calls + [c])
  {
    assert forall i | 0 <= i < |calls| :: calls[i] in calls;
  }

  lemma ReplacedCallStaysUnique(calls: seq<ToolCall>, c: ToolCall)
    requires UniqueToolIds(calls) && calls != [] && c.toolCallId == calls[0].toolCallId
    ensures UniqueToolIds(calls[0 := c])
  {
  }

  /** Every mutant the injector returns still satisfies the identity rules. */
  lemma MutantValid(s: Snapshot, f: Fault)
    requires Valid(s) && Injected(s, f).Ok?
    ensures Valid(Injected(s, f).value)
  {
    hide AscendingEvents, UniqueToolIds, WithToolCalls, NestedUsage, DropCompleted, MaxEventId, FirstRequired;
    var m := Injected(s, f).value;
    if f == DecisionToolLinkLoss {
      DropCompletedAscends(s.events);
    } else if f == SecretLeakage {
      MaxIsNew(s.events, SecretEvent(s));
    } else if f == DuplicateToolCall {
      NewIdStaysUnique(s.toolCalls, Duplicate(s.toolCalls[0]));
    } else if f == ToolResultLoss {
      ReplacedCallStaysUnique(s.toolCalls, m.toolCalls[0]);
    }
  }
}
