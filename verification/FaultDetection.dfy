/** Inject, adapt, evaluate: when the fault suite detects each fault. */
module FaultDetection {
  import opened Counting
  import opened Prelude
  import opened Ordering
  import opened Json
  import opened Secrets
  import opened Snapshot
  import opened Trace
  import opened Citations
  import opened DeepResearchAdapter
  import opened Evaluation
  import opened FaultInjection

  datatype RunError = AdaptRaised(adapt: AdaptError) | EvaluateRaised(evaluate: EvalError)

  /** `evaluate_trace(adapt_deepresearch_snapshot(s))`. */
  function EvaluateSnapshot(py: Platform, s: Snapshot): Result<Report, RunError> {
    match Adapt(py, s)
    case Err(e) => Err(AdaptRaised(e))
    case Ok(t) =>
      match Evaluate(py, t)
      case Err(e) => Err(EvaluateRaised(e))
      case Ok(r) => Ok(r)
  }

  // ----- When each fault is detected -----

  /** A failure event that fits the declared call id. */
  predicate FailureFits(e: Event, declared: Json) {
    e.eventType == "tool.failed" && MatchesTool(e, declared)
  }

  predicate NamesCall(py: Platform, e: Event, ids: set<string>) {
    var id := Get(e.payload, "tool_call_id");
    Truthy(id) && Str(py, id) in ids
  }

  /** Event `j` is the first failure event after event `i`. */
  predicate NextFailure(events: seq<Event>, i: nat, j: nat) {
    i < j < |events| && events[j].eventType == "tool.failed"
    && forall k | i < k < j :: events[k].eventType != "tool.failed"
  }

  /** Decision event `i` links to a recorded call without help from a `tool.completed` event: by the call it
      declares, which an `agent.decision` needs a fitting later failure event for, or through the next failure. */
  predicate KeepsLink(py: Platform, events: seq<Event>, ids: set<string>, i: nat) {
    && i < |events| && IsDecisionEvent(events[i])
    && var declared := Get(events[i].payload, "tool_call_id");
       if Truthy(declared) then
         && NamesCall(py, events[i], ids)
         && (events[i].eventType == "agent.decision" ==> exists j | i < j < |events| :: FailureFits(events[j], declared))
       else
         && events[i].eventType != "agent.decision"
         && exists j | i < j < |events| :: NextFailure(events, i, j) && NamesCall(py, events[j], ids)
  }

  /** Some decision event keeps its link when the completion events are gone. */
  predicate LinkSurvives(py: Platform, events: seq<Event>, ids: set<string>) {
    exists i | 0 <= i < |events| :: KeepsLink(py, events, ids, i)
  }

  /** What a snapshot must look like for a fault in it to be detected. */
  predicate Detectable(py: Platform, s: Snapshot, f: Fault) {
    match f
    case CitationCorruption =>
      INJECTED_ID !in EvidenceIds(s.evidence)
      || exists id | id in CitedIds(s.report) :: id !in EvidenceIds(s.evidence)
    case DecisionToolLinkLoss =>
      s.toolCalls != [] && !LinkSurvives(py, s.events, ToolIds(s.toolCalls))
    case DuplicateToolCall =>
      s.toolCalls != [] && (Fingerprinted(s.toolCalls[0]) || DuplicateFingerprints(s.toolCalls) > 0)
    case _ => true
  }

  // ----- Spans of the records -----

  lemma RecordSpan(events: seq<Event>, calls: seq<ToolCall>, r: Record) returns (span: TraceSpan, n: nat)
    requires r in Records(events, calls)
    ensures span in Spans(events, calls) && span == SpanOf(r, n)
  {
    hide SortBy, Records, SpanOf, RecordLe;
    var sorted := SortBy(Records(events, calls), RecordLe);
    PermutationFacts(sorted, Records(events, calls));
    var i :| 0 <= i < |sorted| && sorted[i] == r;
    n := i + 1;
    span := Spans(events, calls)[i];
  }

  lemma SpanRecord(events: seq<Event>, calls: seq<ToolCall>, span: TraceSpan) returns (r: Record, n: nat)
    requires span in Spans(events, calls)
    ensures r in Records(events, calls) && span == SpanOf(r, n)
  {
    hide SortBy, Records, SpanOf, RecordLe;
    var sorted := SortBy(Records(events, calls), RecordLe);
    PermutationFacts(sorted, Records(events, calls));
    var i :| 0 <= i < |Spans(events, calls)| && Spans(events, calls)[i] == span;
    r, n := sorted[i], i + 1;
  }

  lemma CallSpan(events: seq<Event>, calls: seq<ToolCall>, i: nat) returns (span: TraceSpan)
    requires i < |calls|
    ensures span in Spans(events, calls) && span.kind == TOOL && span.spanId == calls[i].toolCallId
    ensures span.status == ToolStatus(calls[i].status)
  {
    var records := Records(events, calls);
    var r := records[|events| + i];
    var n;
    span, n := RecordSpan(events, calls, r);
  }

  lemma EventSpan(events: seq<Event>, calls: seq<ToolCall>, i: nat) returns (span: TraceSpan)
    requires i < |events|
    ensures span in Spans(events, calls)
    ensures span.attributes == EventAttributes(events[i].eventId, events[i].stage, events[i].payload)
  {
    var records := Records(events, calls);
    var r := records[i];
    var n;
    span, n := RecordSpan(events, calls, r);
  }

  /** Tool spans are exactly the recorded calls. */
  lemma ToolSpanIsCall(events: seq<Event>, calls: seq<ToolCall>, span: TraceSpan)
    requires span in Spans(events, calls) && span.kind == TOOL
    ensures span.spanId in ToolIds(calls)
  {
    var r, n := SpanRecord(events, calls, span);
    assert r.ToolRecord? ==> r.call in calls;
  }

  lemma ToolSpans(events: seq<Event>, calls: seq<ToolCall>)
    ensures (forall s | s in Spans(events, calls) :: s.kind != TOOL) <==> calls == []
    ensures forall id :: (exists s | s in Spans(events, calls) :: s.kind == TOOL && s.spanId == id) <==> id in ToolIds(calls)
  {
    forall i | 0 <= i < |calls|
      ensures exists s | s in Spans(events, calls) :: s.kind == TOOL && s.spanId == calls[i].toolCallId
    {
      var span := CallSpan(events, calls, i);
    }
    forall s | s in Spans(events, calls) && s.kind == TOOL ensures s.spanId in ToolIds(calls) {
      ToolSpanIsCall(events, calls, s);
    }
    if calls != [] {
      var span := CallSpan(events, calls, 0);
    }
  }

  predicate RecordFits(r: Record) {
    if r.EventRecord? then EventFits(r.event) else CallFits(r.call)
  }

  lemma SpanOfFits(r: Record, n: nat)
    ensures SpanFits(SpanOf(r, n)) <==> RecordFits(r)
  {
    hide ShortName, KindOf, EventStatus, ToolStatus;
  }

  lemma RecordMembers(events: seq<Event>, calls: seq<ToolCall>)
    ensures (forall r | r in Records(events, calls) :: RecordFits(r)) <==> RecordsFit(events, calls)
  {
    hide EventFits, CallFits;
    var records := Records(events, calls);
    assert forall i | 0 <= i < |events| :: records[i].EventRecord? && records[i].event == events[i];
    assert forall i | 0 <= i < |calls| :: records[|events| + i].ToolRecord? && records[|events| + i].call == calls[i];
    if forall r | r in records :: RecordFits(r) {
      forall e | e in events ensures EventFits(e) {
        var i :| 0 <= i < |events| && events[i] == e;
        assert records[i] in records;
      }
      forall c | c in calls ensures CallFits(c) {
        var i :| 0 <= i < |calls| && calls[i] == c;
        assert records[|events| + i] in records;
      }
    }
    if RecordsFit(events, calls) {
      forall r | r in records ensures RecordFits(r) {
        var i :| 0 <= i < |records| && records[i] == r;
        assert i < |events| || r == records[|events| + (i - |events|)];
      }
    }
  }

  /** The spans are acceptable exactly when the records they are made from are. */
  lemma SpansFitIff(events: seq<Event>, calls: seq<ToolCall>)
    ensures RecordsFit(events, calls) <==> forall span | span in Spans(events, calls) :: SpanFits(span)
  {
    hide *;
    RecordMembers(events, calls);
    forall span | span in Spans(events, calls) ensures exists r, n | r in Records(events, calls) :: span == SpanOf(r, n) {
      var r, n := SpanRecord(events, calls, span);
    }
    forall r, n: nat ensures SpanFits(SpanOf(r, n)) <==> RecordFits(r) {
      SpanOfFits(r, n);
    }
    forall r | r in Records(events, calls) ensures exists n: nat :: SpanOf(r, n) in Spans(events, calls) {
      var span, n := RecordSpan(events, calls, r);
    }
  }

  // ----- One fault at a time -----

  lemma Adapted(py: Platform, m: Snapshot, t: Trace)
    requires Adapt(py, m) == Ok(t)
    ensures t.state == m.run.status && t.spans == Spans(m.events, m.toolCalls)
    ensures t.decisions == Decisions(py, m.events) && t.metadata == MetadataOf(py, m)
  {
  }

  lemma CitationFault(py: Platform, s: Snapshot, t: Trace)
    requires Adapt(py, Injected(s, CitationCorruption).value) == Ok(t)
    ensures CitationCheck(t.metadata).status == Fail <==> Detectable(py, s, CitationCorruption)
  {
    var m := Injected(s, CitationCorruption).value;
    var known := (id: string) => id in EvidenceIds(s.evidence);
    InjectedIdWellFormed();
    CorruptedReportCitations(Text(s.report), INJECTED_ID);
    var cited := CitedIds(s.report);
    assert CitedIds(m.report) == cited + [INJECTED_ID];
    CountAppend(cited, [INJECTED_ID], known);
    CountBounds(cited, known);
    CountCongruent(CitedIds(m.report), known, (id: string) => id in EvidenceIds(m.evidence));
    CountCongruent([INJECTED_ID], known, known);
    assert s.evidence == [] ==> EvidenceIds(s.evidence) == {};
  }

  lemma SourceModeFault(py: Platform, s: Snapshot, t: Trace)
    requires s.evidence != [] && Adapt(py, Injected(s, SourceModeLeakage).value) == Ok(t)
    ensures SourceIsolationCheck(t.metadata).status == Fail
  {
    var m := Injected(s, SourceModeLeakage).value;
    assert m.evidence[0] in m.evidence && m.evidence[0].sourceMode != m.run.sourceMode;
  }

  lemma CheckpointFault(py: Platform, s: Snapshot, t: Trace)
    requires s.checkpoints != [] && Adapt(py, Injected(s, CheckpointCorruption).value) == Ok(t)
    ensures CheckpointCheck(t.metadata).status == Fail
  {
    var m := Injected(s, CheckpointCorruption).value;
    assert m.checkpoints[0] in m.checkpoints && !m.checkpoints[0].integrityValid;
    var intact := (c: Checkpoint) => c.integrityValid;
    CountBounds(m.checkpoints, intact);
    RatioBelowOne(Count(m.checkpoints, intact), |m.checkpoints|);
  }

  lemma RatioBelowOne(k: nat, n: nat)
    requires k < n
    ensures k as real / n as real != 1.0
  {
  }

  lemma {:induction false} CountDrops<T>(s: seq<T>, p: T -> bool, q: T -> bool, i: nat)
    requires i < |s| && !p(s[i]) && q(s[i]) && forall x | x in s && p(x) :: q(x)
    ensures Count(s, p) < Count(s, q)
  {
    if i > 0 {
      CountDrops(s[1..], p, q, i - 1);
    } else {
      CountImplies(s[1..], p, q);
    }
  }

  lemma ContractFault(py: Platform, s: Snapshot, t: Trace)
    requires Injected(s, RequiredContractFailure).Ok?
    requires Adapt(py, Injected(s, RequiredContractFailure).value) == Ok(t)
    ensures ContractCheck(t.metadata).status == Fail
  {
    hide Adapt;
    var m := Injected(s, RequiredContractFailure).value;
    Adapted(py, m, t);
    var i := FirstRequired(s.contracts);
    UnmetContract(m.contracts, i);
  }

  lemma UnmetContract(contracts: seq<Contract>, i: nat)
    requires i < |contracts| && contracts[i].required && contracts[i].passed == Some(false)
    ensures RequiredPassed(contracts) < RequiredTotal(contracts)
  {
    CountDrops(contracts, (c: Contract) => c.required && c.passed == Some(true), (c: Contract) => c.required, i);
  }

  lemma ResultLossFault(py: Platform, s: Snapshot, t: Trace)
    requires s.toolCalls != [] && Adapt(py, Injected(s, ToolResultLoss).value) == Ok(t)
    ensures ToolResultCheck(t) == Check(ToolResultRecorded, Fail, Severity.Required)
  {
    hide Injected, Spans, MetadataOf, RecordsFit, RecoveryIterable, VerificationIterable, Decisions, DecisionsFit, EnvelopeFits;
    LostCall(s);
    var m := Injected(s, ToolResultLoss).value;
    var span := CallSpan(m.events, m.toolCalls, 0);
    assert span in t.spans;
  }

  lemma LostCall(s: Snapshot)
    requires s.toolCalls != []
    ensures Injected(s, ToolResultLoss).Ok? && Injected(s, ToolResultLoss).value.toolCalls != []
    ensures ToolStatus(Injected(s, ToolResultLoss).value.toolCalls[0].status) == UNSET
  {
  }

  lemma SecretPayload(payload: map<string, Json>, key: string)
    requires key in payload && payload[key] == JStr(INJECTED_SECRET)
    ensures JsonSecret(JObj(payload))
  {
    hide Secret;
    InjectedSecretMatches();
    assert JsonSecret(payload[key]);
  }

  lemma SecretFault(py: Platform, s: Snapshot, t: Trace)
    requires Adapt(py, Injected(s, SecretLeakage).value) == Ok(t)
    ensures SecretCheck(t).status == Fail
  {
    hide Secret, JsonSecret, Adapt, MetadataOf, Spans, Decisions, MaxEventId;
    var m := Injected(s, SecretLeakage).value;
    Adapted(py, m, t);
    assert m.events[|s.events|] == SecretEvent(s);
    var span := EventSpan(m.events, m.toolCalls, |s.events|);
    SecretPayload(SecretEvent(s).payload, "authorization");
    assert SpanSecret(span);
  }

  lemma CopyIsRepeat(calls: seq<ToolCall>)
    requires calls != []
    ensures DuplicateFingerprints(calls + [Duplicate(calls[0])])
            == DuplicateFingerprints(calls) + if Fingerprinted(calls[0]) then 1 else 0
  {
    var longer := calls + [Duplicate(calls[0])];
    assert longer[..|calls|] == calls;
    assert CallKey(Duplicate(calls[0])) == CallKey(calls[0]) && calls[0] in calls;
  }

  lemma DuplicateMutant(s: Snapshot)
    requires Injected(s, DuplicateToolCall).Ok?
    ensures s.toolCalls != []
    ensures Injected(s, DuplicateToolCall).value.toolCalls == s.toolCalls + [Duplicate(s.toolCalls[0])]
  {
  }

  lemma DuplicateFault(py: Platform, s: Snapshot, t: Trace)
    requires Injected(s, DuplicateToolCall).Ok?
    requires Adapt(py, Injected(s, DuplicateToolCall).value) == Ok(t)
    ensures DuplicateCheck(t.metadata).status == Fail <==> Detectable(py, s, DuplicateToolCall)
  {
    hide Adapt, DuplicateFingerprints, CallKey, Injected;
    DuplicateMutant(s);
    Adapted(py, Injected(s, DuplicateToolCall).value, t);
    CopyIsRepeat(s.toolCalls);
  }

  /** The first later `tool.failed` event that fits the declared call id. */
  function FirstFailure(later: seq<Event>, declared: Json): Option<Event> {
    if later == [] then None
    else if FailureFits(later[0], declared) then Some(later[0])
    else FirstFailure(later[1..], declared)
  }

  lemma {:induction false} FirstFailureIsLeast(later: seq<Event>, declared: Json)
    ensures FirstFailure(later, declared) == None <==> forall i | 0 <= i < |later| :: !FailureFits(later[i], declared)
    ensures FirstFailure(later, declared).Some? ==>
              exists i | 0 <= i < |later| :: FailureFits(later[i], declared)
                && (forall j | 0 <= j < i :: !FailureFits(later[j], declared))
                && FirstFailure(later, declared) == Some(later[i])
  {
    hide FailureFits;
    if later != [] && !FailureFits(later[0], declared) {
      FirstFailureIsLeast(later[1..], declared);
      assert forall i | 0 < i < |later| :: later[i] == later[1..][i - 1];
      if FirstFailure(later, declared).Some? {
        var i :| 0 <= i < |later[1..]| && FailureFits(later[1..][i], declared)
                 && (forall j | 0 <= j < i :: !FailureFits(later[1..][j], declared))
                 && FirstFailure(later[1..], declared) == Some(later[1..][i]);
        assert FailureFits(later[i + 1], declared);
      }
    }
  }

  /** The call a decision event still links to when no completion event is left. */
  function FallbackLink(e: Event, later: seq<Event>): Json {
    var declared := Get(e.payload, "tool_call_id");
    if e.eventType == "agent.decision" then
      if FirstFailure(later, declared).Some? then declared else JNull
    else if Truthy(declared) then declared
    else if FirstFailure(later, declared).Some? then Get(FirstFailure(later, declared).value.payload, "tool_call_id")
    else JNull
  }

  predicate HeadLinks(py: Platform, events: seq<Event>, ids: set<string>)
    requires events != []
  {
    && IsDecisionEvent(events[0])
    && Truthy(FallbackLink(events[0], events[1..]))
    && Str(py, FallbackLink(events[0], events[1..])) in ids
  }

  /** Without a declared call the failure found is the next one. */
  lemma NextFailureIsFirst(events: seq<Event>, declared: Json)
    requires events != [] && !Truthy(declared)
    ensures forall j | 0 < j < |events| && NextFailure(events, 0, j) :: FirstFailure(events[1..], declared) == Some(events[j])
    ensures FirstFailure(events[1..], declared).Some? ==> exists j | 0 < j < |events| :: NextFailure(events, 0, j)
  {
    var later := events[1..];
    assert forall e :: FailureFits(e, declared) <==> e.eventType == "tool.failed";
    FirstFailureIsLeast(later, declared);
    hide FailureFits, FirstFailure;
    assert forall j | 0 < j < |events| :: events[j] == later[j - 1];
    forall j | 0 < j < |events| && NextFailure(events, 0, j) ensures FirstFailure(later, declared) == Some(events[j]) {
      assert FailureFits(later[j - 1], declared);
      assert forall k | 0 <= k < j - 1 :: later[k] == events[k + 1];
    }
    if FirstFailure(later, declared).Some? {
      var i :| 0 <= i < |later| && FailureFits(later[i], declared)
               && (forall j | 0 <= j < i :: !FailureFits(later[j], declared))
               && FirstFailure(later, declared) == Some(later[i]);
      assert NextFailure(events, 0, i + 1);
    }
  }

  lemma UndeclaredHead(py: Platform, events: seq<Event>, ids: set<string>)
    requires events != [] && !Truthy(Get(events[0].payload, "tool_call_id"))
    ensures (exists j | 0 < j < |events| :: NextFailure(events, 0, j) && NamesCall(py, events[j], ids))
            <==> var first := FirstFailure(events[1..], Get(events[0].payload, "tool_call_id"));
                 first.Some? && NamesCall(py, first.value, ids)
  {
    hide NextFailure, NamesCall, FirstFailure;
    NextFailureIsFirst(events, Get(events[0].payload, "tool_call_id"));
  }

  lemma HeadKeepsLink(py: Platform, events: seq<Event>, ids: set<string>)
    requires events != []
    ensures KeepsLink(py, events, ids, 0) <==> HeadLinks(py, events, ids)
  {
    var later, declared := events[1..], Get(events[0].payload, "tool_call_id");
    FirstFailureIsLeast(later, declared);
    assert (exists j | 0 < j < |events| :: FailureFits(events[j], declared)) <==> FirstFailure(later, declared).Some? by {
      assert forall j | 0 < j < |events| :: events[j] == later[j - 1];
      assert forall i | 0 <= i < |later| :: later[i] == events[i + 1];
    }
    if !Truthy(declared) {
      UndeclaredHead(py, events, ids);
    }
    hide FailureFits, FirstFailure, NextFailure, IsDecisionEvent, Truthy;
    assert !Truthy(JNull);
  }

  lemma KeepsLinkShifts(py: Platform, events: seq<Event>, ids: set<string>, i: nat)
    requires events != []
    ensures KeepsLink(py, events[1..], ids, i) <==> KeepsLink(py, events, ids, i + 1)
  {
    hide FailureFits, NamesCall, IsDecisionEvent, Truthy;
    var later := events[1..];
    assert forall j | 0 <= j < |later| :: later[j] == events[j + 1];
    forall j | 0 <= j < |later| && NextFailure(later, i, j) ensures NextFailure(events, i + 1, j + 1) {
      assert forall k | i + 1 < k < j + 1 :: events[k] == later[k - 1];
    }
    forall j | 0 < j < |events| && NextFailure(events, i + 1, j)
      ensures NextFailure(later, i, j - 1) && later[j - 1] == events[j]
    {
    }
    forall j | 0 < j < |events| ensures events[j] == later[j - 1] {
    }
  }

  /** A link survives in the head event or in the rest. */
  lemma LinkSurvivesCons(py: Platform, events: seq<Event>, ids: set<string>)
    requires events != []
    ensures LinkSurvives(py, events, ids) <==> HeadLinks(py, events, ids) || LinkSurvives(py, events[1..], ids)
  {
    hide KeepsLink, HeadLinks;
    HeadKeepsLink(py, events, ids);
    if i :| 0 <= i < |events| && KeepsLink(py, events, ids, i) {
      if i > 0 {
        KeepsLinkShifts(py, events, ids, i - 1);
      }
    }
    if i :| 0 <= i < |events[1..]| && KeepsLink(py, events[1..], ids, i) {
      KeepsLinkShifts(py, events, ids, i);
    }
  }

  lemma {:induction false} FirstAfterDrop(later: seq<Event>, declared: Json)
    ensures FirstToolEvent(DropCompleted(later), declared) == FirstFailure(later, declared)
  {
    if later != [] {
      FirstAfterDrop(later[1..], declared);
      var rest := DropCompleted(later[1..]);
      if later[0].eventType != "tool.completed" {
        assert DropCompleted(later) == [later[0]] + rest;
        assert ([later[0]] + rest)[1..] == rest;
      } else {
        assert DropCompleted(later) == rest;
      }
    }
  }

  /** A decision links to one of the recorded calls. */
  ghost predicate LinksInto(decisions: seq<Decision>, ids: set<string>) {
    exists d | d in decisions :: d.toolCallId.Some? && d.toolCallId.value in ids
  }

  lemma LinksAppend(a: seq<Decision>, b: seq<Decision>, ids: set<string>)
    ensures LinksInto(a + b, ids) <==> LinksInto(a, ids) || LinksInto(b, ids)
  {
    assert forall d :: d in a + b <==> d in a || d in b;
  }

  lemma HeadDecision(py: Platform, events: seq<Event>, rest: seq<Event>, ids: set<string>)
    requires events != [] && rest == DropCompleted(events[1..])
    ensures LinksInto(if IsDecisionEvent(events[0]) then [DecisionOf(py, events[0], rest)] else [], ids)
            <==> HeadLinks(py, events, ids)
  {
    FirstAfterDrop(events[1..], Get(events[0].payload, "tool_call_id"));
    assert LinkedCall(events[0], rest) == FallbackLink(events[0], events[1..]);
    hide LinkedCall, FallbackLink, IsDecisionEvent;
    var d := DecisionOf(py, events[0], rest);
    assert d in [d];
  }

  lemma CompletionIsNoDecision(e: Event)
    requires e.eventType == "tool.completed"
    ensures !IsDecisionEvent(e)
  {
    assert e.eventType[0] == 't' && "agent.decision"[0] == 'a';
  }

  lemma {:induction false} LinksAfterDrop(py: Platform, events: seq<Event>, ids: set<string>)
    ensures LinksInto(Decisions(py, DropCompleted(events)), ids) <==> LinkSurvives(py, events, ids)
  {
    hide LinksInto, LinkSurvives, DecisionOf, IsDecisionEvent, HeadLinks;
    if events == [] {
      NoLinks(py, ids);
    } else {
      var e, rest := events[0], DropCompleted(events[1..]);
      LinksAfterDrop(py, events[1..], ids);
      LinkSurvivesCons(py, events, ids);
      HeadDecision(py, events, rest, ids);
      if e.eventType != "tool.completed" {
        var head := if IsDecisionEvent(e) then [DecisionOf(py, e, rest)] else [];
        assert DropCompleted(events) == [e] + rest && ([e] + rest)[1..] == rest;
        assert Decisions(py, DropCompleted(events)) == head + Decisions(py, rest);
        LinksAppend(head, Decisions(py, rest), ids);
      } else {
        assert DropCompleted(events) == rest;
        CompletionIsNoDecision(e);
        HeadNeedsDecision(py, events, ids);
      }
    }
  }

  lemma NoLinks(py: Platform, ids: set<string>)
    ensures !LinksInto([], ids) && !LinkSurvives(py, [], ids)
  {
  }

  lemma HeadNeedsDecision(py: Platform, events: seq<Event>, ids: set<string>)
    requires events != [] && !IsDecisionEvent(events[0])
    ensures !HeadLinks(py, events, ids)
  {
  }

  /** The link check reads only the calls and the decisions. */
  lemma LinkCheckFails(py: Platform, m: Snapshot, t: Trace)
    requires t.spans == Spans(m.events, m.toolCalls) && t.decisions == Decisions(py, m.events)
    ensures ToolLinkCheck(t) == Check(ToolDecisionLink, Fail, Severity.Required)
            <==> m.toolCalls != [] && !LinksInto(Decisions(py, m.events), ToolIds(m.toolCalls))
  {
    hide Spans, Decisions, ToolIds;
    ToolSpans(m.events, m.toolCalls);
    assert forall d | d in t.decisions :: LinksTool(t, d) <==> d.toolCallId.Some? && d.toolCallId.value in ToolIds(m.toolCalls);
  }

  lemma LinkLossFault(py: Platform, s: Snapshot, t: Trace)
    requires Adapt(py, Injected(s, DecisionToolLinkLoss).value) == Ok(t)
    ensures ToolLinkCheck(t) == Check(ToolDecisionLink, Fail, Severity.Required)
            <==> Detectable(py, s, DecisionToolLinkLoss)
  {
    hide Adapt, ToolLinkCheck, LinksInto, Decisions, LinkSurvives, ToolIds, Spans;
    var m := Injected(s, DecisionToolLinkLoss).value;
    Adapted(py, m, t);
    LinkCheckFails(py, m, t);
    LinksAfterDrop(py, s.events, ToolIds(s.toolCalls));
  }

  lemma TruncateNat(n: nat)
    ensures Truncate(n as real) == n
  {
  }

  lemma OverwrittenToolCalls(py: Platform, usage: map<string, Json>, inner: map<string, Json>, n: nat)
    requires n > 0
    ensures ReportedToolCalls(py, WithToolCalls(usage, inner, n)) == Some(n)
  {
    TruncateNat(n);
    var updated := inner["tool_calls" := JNum(n as real)];
    assert WithToolCalls(usage, inner, n)["usage"] == JObj(updated);
    assert Get(updated, "tool_calls") == JNum(n as real);
  }

  lemma AccountingFault(py: Platform, s: Snapshot, t: Trace)
    requires Injected(s, ToolAccountingDrift).Ok?
    requires Adapt(py, Injected(s, ToolAccountingDrift).value) == Ok(t)
    ensures ReportedToolCalls(py, t.metadata.usage) == Some(|s.toolCalls| + 7)
    ensures AccountingCheck(t.metadata, |s.toolCalls| + 7).status == Fail
  {
    hide Adapt, ReportedToolCalls, WithToolCalls;
    Adapted(py, Injected(s, ToolAccountingDrift).value, t);
    OverwrittenToolCalls(py, s.run.usage, NestedUsage(s.run.usage).value, |s.toolCalls| + 7);
  }

  /** Faults of the report, the evidence, the checkpoints, the contracts and the usage record. */
  predicate ChangesRecord(f: Fault) {
    || f.CitationCorruption? || f.SourceModeLeakage? || f.CheckpointCorruption? || f.RequiredContractFailure?
    || f.ToolAccountingDrift?
  }

  lemma RecordFaultTripsCheck(py: Platform, s: Snapshot, f: Fault, t: Trace, reported: int)
    requires Injected(s, f).Ok? && Adapt(py, Injected(s, f).value) == Ok(t)
    requires ReportedToolCalls(py, t.metadata.usage) == Some(reported)
    requires ChangesRecord(f)
    ensures CheckFor(t, reported, ExpectedCheck(f)) == Check(ExpectedCheck(f), Fail, Severity.Required)
            <==> Detectable(py, s, f)
  {
    hide Adapt, ReportedToolCalls, ToolResultCheck, ToolLinkCheck, TraceSecret, MetadataOf;
    match f
    case CitationCorruption => CitationFault(py, s, t);
    case SourceModeLeakage => SourceModeFault(py, s, t);
    case CheckpointCorruption => CheckpointFault(py, s, t);
    case RequiredContractFailure => ContractFault(py, s, t);
    case ToolAccountingDrift => AccountingFault(py, s, t);
  }

  lemma TraceChecks(t: Trace, reported: int)
    ensures CheckFor(t, reported, ToolResultRecorded) == ToolResultCheck(t)
    ensures CheckFor(t, reported, TerminalDisposition) == TerminalCheck(t)
    ensures CheckFor(t, reported, NoRawSecret) == SecretCheck(t)
  {
    hide ToolResultCheck, TerminalCheck, SecretCheck;
  }

  lemma NonTerminalFault(py: Platform, s: Snapshot, t: Trace)
    requires Adapt(py, Injected(s, NonTerminalRun).value) == Ok(t)
    ensures TerminalCheck(t) == Check(TerminalDisposition, Fail, Severity.Required)
  {
    ActiveMutant(s);
    hide Adapt, Injected, Spans, Decisions, MetadataOf;
    Adapted(py, Injected(s, NonTerminalRun).value, t);
  }

  lemma ActiveMutant(s: Snapshot)
    ensures Injected(s, NonTerminalRun).Ok? && Injected(s, NonTerminalRun).value.run.status == "active"
  {
  }

  lemma SecretFailure(t: Trace)
    requires SecretCheck(t).status == Fail
    ensures SecretCheck(t) == Check(NoRawSecret, Fail, Severity.Required)
  {
    hide TraceSecret;
  }

  lemma NeedsCall(s: Snapshot)
    requires Injected(s, ToolResultLoss).Ok?
    ensures s.toolCalls != []
  {
  }

  lemma AlwaysDetectable(py: Platform, s: Snapshot, f: Fault)
    requires f.ToolResultLoss? || f.NonTerminalRun? || f.SecretLeakage?
    ensures Detectable(py, s, f)
  {
  }

  lemma TraceFaultTripsCheck(py: Platform, s: Snapshot, f: Fault, t: Trace, reported: int)
    requires Injected(s, f).Ok? && Adapt(py, Injected(s, f).value) == Ok(t)
    requires f.ToolResultLoss? || f.NonTerminalRun? || f.SecretLeakage?
    ensures CheckFor(t, reported, ExpectedCheck(f)) == Check(ExpectedCheck(f), Fail, Severity.Required)
            <==> Detectable(py, s, f)
  {
    hide Injected, Adapt, Detectable, CheckFor, ToolResultCheck, TerminalCheck, SecretCheck;
    AlwaysDetectable(py, s, f);
    TraceChecks(t, reported);
    match f
    case ToolResultLoss =>
      NeedsCall(s);
      ResultLossFault(py, s, t);
    case NonTerminalRun => NonTerminalFault(py, s, t);
    case SecretLeakage =>
      SecretFault(py, s, t);
      SecretFailure(t);
  }

  lemma CallFaultTripsCheck(py: Platform, s: Snapshot, f: Fault, t: Trace, reported: int)
    requires Injected(s, f).Ok? && Adapt(py, Injected(s, f).value) == Ok(t)
    requires ReportedToolCalls(py, t.metadata.usage) == Some(reported)
    requires f.DecisionToolLinkLoss? || f.DuplicateToolCall?
    ensures CheckFor(t, reported, ExpectedCheck(f)) == Check(ExpectedCheck(f), Fail, Severity.Required)
            <==> Detectable(py, s, f)
  {
    hide Adapt, ReportedToolCalls, ToolResultCheck, ToolLinkCheck, TraceSecret, MetadataOf, Injected, LinkSurvives;
    if f.DecisionToolLinkLoss? {
      LinkLossFault(py, s, t);
    } else {
      DuplicateFault(py, s, t);
    }
  }

  /** The check a fault is meant to trip, in the trace of its mutant. */
  lemma FaultTripsCheck(py: Platform, s: Snapshot, f: Fault, t: Trace, reported: int)
    requires Injected(s, f).Ok? && Adapt(py, Injected(s, f).value) == Ok(t)
    requires ReportedToolCalls(py, t.metadata.usage) == Some(reported)
    ensures CheckFor(t, reported, ExpectedCheck(f)) == Check(ExpectedCheck(f), Fail, Severity.Required)
            <==> Detectable(py, s, f)
  {
    assert ChangesRecord(f) || f.DecisionToolLinkLoss? || f.DuplicateToolCall? || f.ToolResultLoss? || f.NonTerminalRun?
           || f.SecretLeakage?;
    hide *;
    if ChangesRecord(f) {
      RecordFaultTripsCheck(py, s, f, t, reported);
    } else if f.DecisionToolLinkLoss? || f.DuplicateToolCall? {
      CallFaultTripsCheck(py, s, f, t, reported);
    } else {
      TraceFaultTripsCheck(py, s, f, t, reported);
    }
  }

  /**
   Whenever a mutant can be built and evaluated at all, the suite detects the fault
   exactly when the snapshot was `Detectable`.
   */
  lemma DetectedIffDetectable(py: Platform, s: Snapshot, f: Fault)
    requires Injected(s, f).Ok?
    requires EvaluateSnapshot(py, Injected(s, f).value).Ok?
    ensures ExpectedCheck(f) in EvaluateSnapshot(py, Injected(s, f).value).value.failureCategories
            <==> Detectable(py, s, f)
  {
    hide Detectable, Injected, CheckFor, Adapt;
    var t := Adapt(py, Injected(s, f).value).value;
    FailureListed(py, t, ExpectedCheck(f));
    FaultTripsCheck(py, s, f, t, ReportedToolCalls(py, t.metadata.usage).value);
  }
}
