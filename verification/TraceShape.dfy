/** The trace a snapshot is normalized into, span by span and decision by decision. */
module TraceShape {
  import opened Counting
  import opened DeepResearchAdapter
  import opened FaultDetection
  import opened Json
  import opened Ordering
  import opened Prelude
  import opened RealArithmetic
  import opened RunVerdict
  import opened Snapshot
  import opened Trace

  // ----- Spans -----

  lemma RecordLeTotal()
    ensures TotalPreorder(RecordLe)
  {
  }

  /** A record is an event under its own id, or a call numbered after all events, in the order listed. */
  lemma OrdinalIs(events: seq<Event>, calls: seq<ToolCall>, r: Record)
    requires r in Records(events, calls)
    ensures r.EventRecord? ==> r.event in events && r.ordinal == r.event.eventId
    ensures r.ToolRecord? ==> exists k | 0 <= k < |calls| :: r.call == calls[k] && r.ordinal == MaxEventId(events) + 1 + k
  {
    hide MaxEventId;
    var records := Records(events, calls);
    var i :| 0 <= i < |records| && records[i] == r;
    if i >= |events| {
      assert r == ToolRecord(MaxEventId(events) + 1 + (i - |events|), calls[i - |events|]);
    }
  }

  /** Where span `i` comes from. */
  lemma SpanAt(events: seq<Event>, calls: seq<ToolCall>, i: nat) returns (r: Record)
    requires i < |Spans(events, calls)|
    ensures r in Records(events, calls) && Spans(events, calls)[i] == SpanOf(r, i + 1)
    ensures r == SortBy(Records(events, calls), RecordLe)[i]
  {
    hide SpanOf, RecordLe, Records;
    var sorted := SortBy(Records(events, calls), RecordLe);
    PermutationFacts(sorted, Records(events, calls));
    r := sorted[i];
  }

  /** The position of a call in the list, by its id. */
  ghost predicate ListedAt(calls: seq<ToolCall>, id: string, k: nat) {
    k < |calls| && calls[k].toolCallId == id
  }

  /** Spans follow the clock; at one instant events come first, by their ids, then calls in the order listed. */
  lemma SpansInOrder(events: seq<Event>, calls: seq<ToolCall>, i: nat, j: nat)
    requires i < j < |Spans(events, calls)|
    ensures var a, b := Spans(events, calls)[i], Spans(events, calls)[j];
            && a.startedAt <= b.startedAt
            && (a.startedAt == b.startedAt ==>
                  && (a.attributes.ToolAttributes? ==> b.attributes.ToolAttributes?)
                  && (a.attributes.EventAttributes? && b.attributes.EventAttributes? ==>
                        a.attributes.eventId <= b.attributes.eventId)
                  && (a.attributes.ToolAttributes? && b.attributes.ToolAttributes? ==>
                        exists k, l :: k <= l && ListedAt(calls, a.spanId, k) && ListedAt(calls, b.spanId, l)))
  {
    var p := SpanAt(events, calls, i);
    var q := SpanAt(events, calls, j);
    RecordLeTotal();
    SortBySorted(Records(events, calls), RecordLe);
    assert RecordLe(p, q);
    hide Spans, Records, SortBy, KindOf, EventStatus, ToolStatus, Decimal;
    OrdinalIs(events, calls, p);
    OrdinalIs(events, calls, q);
    if p.ToolRecord? && q.ToolRecord? {
      var k: nat :| k < |calls| && p.call == calls[k] && p.ordinal == MaxEventId(events) + 1 + k;
      var l: nat :| l < |calls| && q.call == calls[l] && q.ordinal == MaxEventId(events) + 1 + l;
      assert ListedAt(calls, p.call.toolCallId, k) && ListedAt(calls, q.call.toolCallId, l);
    }
  }

  /** Span `i` is numbered `i + 1`, and there is one span for each event and each call. */
  lemma SpansNumbered(events: seq<Event>, calls: seq<ToolCall>)
    ensures |Spans(events, calls)| == |events| + |calls|
    ensures forall i | 0 <= i < |Spans(events, calls)| :: Spans(events, calls)[i].sequence == i + 1
  {
    SequenceIs(events, calls);
  }

  ghost predicate HasPrefix(name: string, prefix: string) {
    |prefix| <= |name| && name[..|prefix|] == prefix
  }

  /** The span of an event: named after it, of no duration, never a tool's, and failed or fine by what its type
      and payload say. */
  lemma EventSpanIs(events: seq<Event>, calls: seq<ToolCall>, e: Event) returns (span: TraceSpan)
    requires e in events
    ensures span in Spans(events, calls)
    ensures span.spanId == "event_" + Decimal(e.eventId) && span.name == e.eventType
    ensures span.startedAt == span.endedAt == e.createdAt
    ensures span.attributes == EventAttributes(e.eventId, e.stage, e.payload)
    ensures span.kind == RETRIEVER <==> HasPrefix(e.eventType, "evidence.") || HasPrefix(e.eventType, "source.")
    ensures span.kind == EVALUATOR <==> HasPrefix(e.eventType, "verification.")
    ensures span.kind == AGENT <==> HasPrefix(e.eventType, "plan.") || HasPrefix(e.eventType, "run.")
                                    || HasPrefix(e.eventType, "agent.") || HasPrefix(e.eventType, "iteration.")
    ensures span.kind != TOOL
    ensures span.status == ERROR <==> EndsWith(e.eventType, ".failed") || EndsWith(e.eventType, ".error")
                                      || Get(e.payload, "passed") == JBool(false)
    ensures span.status != ERROR ==>
              (span.status == OK <==> EndsWith(e.eventType, ".completed") || EndsWith(e.eventType, ".created")
                                      || EndsWith(e.eventType, ".resumed") || EndsWith(e.eventType, ".added"))
  {
    hide Spans, Decimal, EndsWith, EventStatus, KindOf, ToolStatus;
    var k :| 0 <= k < |events| && events[k] == e;
    assert Records(events, calls)[k] == EventRecord(e.eventId, e);
    var n;
    span, n := RecordSpan(events, calls, EventRecord(e.eventId, e));
    StatusOfEvent(e);
    KindsDiffer(e.eventType);
  }

  lemma StatusOfEvent(e: Event)
    ensures EventStatus(e) == ERROR <==> EndsWith(e.eventType, ".failed") || EndsWith(e.eventType, ".error")
                                         || Get(e.payload, "passed") == JBool(false)
    ensures EventStatus(e) != ERROR ==>
              (EventStatus(e) == OK <==> EndsWith(e.eventType, ".completed") || EndsWith(e.eventType, ".created")
                                         || EndsWith(e.eventType, ".resumed") || EndsWith(e.eventType, ".added"))
  {
    hide EndsWith;
  }

  /** No event type starts in two of these ways, so the order in which they are tried does not matter. */
  lemma KindsDiffer(name: string)
    ensures KindOf(name) == RETRIEVER <==> HasPrefix(name, "evidence.") || HasPrefix(name, "source.")
    ensures KindOf(name) == EVALUATOR <==> HasPrefix(name, "verification.")
    ensures KindOf(name) == AGENT <==> HasPrefix(name, "plan.") || HasPrefix(name, "run.") || HasPrefix(name, "agent.")
                                       || HasPrefix(name, "iteration.")
    ensures KindOf(name) != TOOL
  {
    FirstLetter(name, "evidence.");
    FirstLetter(name, "source.");
    FirstLetter(name, "verification.");
    FirstLetter(name, "plan.");
    FirstLetter(name, "run.");
    FirstLetter(name, "agent.");
    FirstLetter(name, "iteration.");
    hide HasPrefix, StartsWith;
  }

  lemma FirstLetter(name: string, prefix: string)
    requires prefix != []
    ensures HasPrefix(name, prefix) <==> StartsWith(name, prefix)
    ensures HasPrefix(name, prefix) ==> name != [] && name[0] == prefix[0]
  {
    if HasPrefix(name, prefix) {
      assert name[..|prefix|][0] == prefix[0];
    }
  }

  /** The span of a call: under the call's own id, from its start to its completion if it has one. */
  lemma CallSpanIs(events: seq<Event>, calls: seq<ToolCall>, c: ToolCall) returns (span: TraceSpan)
    requires c in calls
    ensures span in Spans(events, calls)
    ensures span.spanId == c.toolCallId && span.name == c.toolName && span.kind == TOOL
    ensures span.startedAt == c.createdAt && (c.completedAt.Some? ==> span.endedAt == c.completedAt.value)
    ensures c.completedAt.None? ==> span.endedAt == c.createdAt
    ensures span.status == OK <==> c.status == "completed"
    ensures span.status == ERROR <==> c.status == "failed" || c.status == "cancelled" || c.status == "denied"
    ensures span.attributes
            == ToolAttributes(c.taskId, c.sourceMode, c.status, c.argsHash, c.resultPresent, c.errorCode)
  {
    hide Spans, MaxEventId;
    var k :| 0 <= k < |calls| && calls[k] == c;
    var r := Records(events, calls)[|events| + k];
    assert r.ToolRecord? && r.call == c;
    var n;
    span, n := RecordSpan(events, calls, r);
  }

  /** The trace names the run, its state and its task, and spans the run's time, never ending before it starts. */
  lemma EnvelopeIs(py: Platform, s: Snapshot, t: Trace)
    requires Adapt(py, s) == Ok(t)
    ensures t.traceId == "deepresearch_" + s.run.runId && t.state == s.run.status && t.task == s.task
    ensures t.startedAt == (if s.run.startedAt.Some? then s.run.startedAt.value else s.run.createdAt)
    ensures t.startedAt <= t.endedAt
    ensures var end := if s.run.completedAt.Some? then s.run.completedAt.value else s.run.updatedAt;
            t.endedAt == end || (end < t.startedAt && t.endedAt == t.startedAt)
  {
    hide Spans, MetadataOf, Decisions, RecordsFit, RecoveryIterable, VerificationIterable, DecisionsFit;
  }

  /** The figures of the metadata that count records of one kind. */
  lemma MetadataIs(py: Platform, s: Snapshot)
    ensures var m := MetadataOf(py, s);
            && m.toolCallCount == |s.toolCalls| && m.evidenceCount == |s.evidence| && m.checkpointCount == |s.checkpoints|
            && (m.sourceLeakage <==> exists e | e in s.evidence :: e.sourceMode != s.run.sourceMode)
            && (forall kind :: kind in m.contractKinds <==> exists c | c in s.contracts :: c.kind == kind)
            && m.requiredTotal == Count(s.contracts, (c: Contract) => c.required)
            && m.requiredPassed == Count(s.contracts, (c: Contract) => c.required && c.passed == Some(true))
            && m.citationCount == |CitedIds(s.report)|
            && m.validCitationCount == Count(CitedIds(s.report), (id: string) => Known(s.evidence, id))
            && m.misroutedReplans == Count(s.events, (e: Event) => ReplannedNeedlessly(py, e))
            && (m.checkpointRate.None? <==> s.checkpoints == [])
            && (m.checkpointRate.Some? ==>
                  m.checkpointRate.value * |s.checkpoints| as real
                  == Count(s.checkpoints, (c: Checkpoint) => c.integrityValid) as real)
  {
    KnownCitations(s.report, s.evidence);
    NeedlessReplans(py, s.events);
    RateIs(s.checkpoints);
    hide CitedIds, ValidCitations, Misrouted, ReplannedNeedlessly, DuplicateFingerprints, FetchFailures, RecoveredCount,
         FailedCount, CheckpointRate, Count, Known;
  }

  lemma KnownCitations(report: Option<string>, evidence: seq<Evidence>)
    ensures ValidCitations(report, evidence) == Count(CitedIds(report), (id: string) => Known(evidence, id))
  {
    hide CitedIds, Count;
    CountCongruent(CitedIds(report), (id: string) => id in EvidenceIds(evidence), (id: string) => Known(evidence, id));
  }

  lemma NeedlessReplans(py: Platform, events: seq<Event>)
    ensures Count(events, (e: Event) => Misrouted(py, e)) == Count(events, (e: Event) => ReplannedNeedlessly(py, e))
  {
    hide Misrouted, ReplannedNeedlessly, Count;
    forall e | e in events ensures Misrouted(py, e) <==> ReplannedNeedlessly(py, e) {
      ReplanIs(py, e);
    }
    CountCongruent(events, (e: Event) => Misrouted(py, e), (e: Event) => ReplannedNeedlessly(py, e));
  }

  lemma RateIs(checkpoints: seq<Checkpoint>)
    ensures var rate := CheckpointRate(checkpoints);
            && (rate.None? <==> checkpoints == [])
            && (rate.Some? ==> rate.value * |checkpoints| as real
                               == Count(checkpoints, (c: Checkpoint) => c.integrityValid) as real)
  {
    if checkpoints != [] {
      DivTimes(Count(checkpoints, (c: Checkpoint) => c.integrityValid) as real, |checkpoints| as real);
    }
  }

  ghost predicate Known(evidence: seq<Evidence>, id: string) {
    exists e | e in evidence :: e.evidenceId == id
  }

  /** The categories of failed page fetches: the error codes given, and one name for those without. */
  lemma FetchCategoriesAre(evidence: seq<Evidence>, category: string)
    ensures category in FetchFailures(evidence) <==>
              exists e | e in evidence :: e.pageFetchStatus == Some("failed")
                && if e.pageFetchErrorCode.None? || e.pageFetchErrorCode == Some("") then category == "unspecified"
                   else e.pageFetchErrorCode == Some(category)
  {
  }

  // ----- Decisions -----

  /** The decision taken at event `i`: what kind it is and which call, if any, it is about. */
  lemma DecisionIs(py: Platform, events: seq<Event>, i: nat, id: string) returns (d: Decision)
    requires i < |events| && Decides(events[i])
    ensures Count(events[..i], IsDecisionEvent) < |Decisions(py, events)|
    ensures d == Decisions(py, events)[Count(events[..i], IsDecisionEvent)] && d.eventId == events[i].eventId
    ensures d.disposition == CONTINUE <==> events[i].eventType == "agent.decision"
    ensures d.disposition == REPLAN <==> events[i].eventType == "plan.replanning"
    ensures d.disposition == STOP <==> events[i].eventType == "verification.completed"
    ensures d.toolCallId == Some(id) <==> IsAboutCall(py, events, {id}, i)
  {
    hide LinkedCall, IsAboutCall;
    DecidesIs(events[i]);
    DecisionsAt(py, events);
    LinkedIs(py, events, {id}, i);
    d := DecisionOf(py, events[i], events[i + 1..]);
  }

  /** Calls have one fingerprint exactly when task, tool, source mode and arguments are the same text, as long as
      no name holds a bar. */
  lemma SameFingerprintIff(a: ToolCall, b: ToolCall)
    requires NonEmpty(a.argsHash) && NonEmpty(b.argsHash)
    requires (a.taskId.Some? ==> '|' !in a.taskId.value) && '|' !in a.toolName && '|' !in a.sourceMode
    requires (b.taskId.Some? ==> '|' !in b.taskId.value) && '|' !in b.toolName && '|' !in b.sourceMode
    requires a.taskId != Some("None") && b.taskId != Some("None")
    ensures Repeats(a, b) <==>
              a.taskId == b.taskId && a.toolName == b.toolName && a.sourceMode == b.sourceMode && a.argsHash == b.argsHash
  {
    if CallKey(a) == CallKey(b) {
      var s := if a.taskId.Some? then a.taskId.value else "None";
      var t := if b.taskId.Some? then b.taskId.value else "None";
      var p, q := a.sourceMode + "|" + a.argsHash.value, b.sourceMode + "|" + b.argsHash.value;
      assert CallKey(a) == s + "|" + (a.toolName + "|" + p);
      assert CallKey(b) == t + "|" + (b.toolName + "|" + q);
      SameFirstPart(s, a.toolName + "|" + p, t, b.toolName + "|" + q);
      SameFirstPart(a.toolName, p, b.toolName, q);
      SameFirstPart(a.sourceMode, a.argsHash.value, b.sourceMode, b.argsHash.value);
    }
  }

  // ----- What the trace schema lets through -----

  /** A string that fits the limit and is not empty. */
  ghost predicate Fits(s: string, limit: nat) {
    1 <= |s| && |s| <= limit
  }

  /** A snapshot is normalized exactly when its names fit the trace schema, no call ends before it starts, every
      recovery list of a failed call in an accepted run and every list of failed verifications can be iterated, and
      the calls that decisions are about have ids that fit. */
  lemma AdaptsIff(py: Platform, s: Snapshot)
    ensures Adapt(py, s).Ok? <==>
              && (forall e | e in s.events :: Fits(e.eventType, 256) && Fits("event_" + Decimal(e.eventId), 256))
              && (forall c | c in s.toolCalls :: Fits(c.toolCallId, 256) && Fits(c.toolName, 256)
                                                 && (c.completedAt.Some? ==> c.createdAt <= c.completedAt.value))
              && (Accepted(s) ==> forall e | e in s.events :: NamesFailed(py, s, e) ==>
                    Iterate(Get(e.payload, "recovered_by_tool_call_ids")).Some?)
              && (forall e | e in s.events && e.eventType == "verification.completed"
                             && Get(e.payload, "passed") == JBool(false) :: Iterate(Get(e.payload, "failures")).Some?)
              && (forall i: nat | i < |s.events| :: Decides(s.events[i]) ==> DecisionNamesFit(py, s.events, i))
              && Fits("deepresearch_" + s.run.runId, 256) && Fits(s.run.status, 64)
              && (s.task.Some? ==> |s.task.value| <= 4096)
  {
    AcceptedIs(s);
    RecoveryIs(py, s);
    DecisionNames(py, s.events);
    hide Spans, MetadataOf, Decisions, Iterate, Decides, DecisionNamesFit, NamesFailed, VerifiedTerminal, Accepted, DecisionsFit,
         RecoveryIterable;
  }

  /** A recovery event names a failed call. */
  ghost predicate NamesFailed(py: Platform, s: Snapshot, e: Event) {
    && e.eventType == "tool.recovery_confirmed"
    && exists c | c in s.toolCalls ::
         Unsuccessful(c) && c.toolCallId == StrOrEmpty(py, Get(e.payload, "failed_tool_call_id"))
  }

  lemma RecoveryIs(py: Platform, s: Snapshot)
    ensures RecoveryIterable(py, VerifiedTerminal(s.run, s.contracts), s.events, s.toolCalls)
            <==> (VerifiedTerminal(s.run, s.contracts) ==> forall e | e in s.events :: NamesFailed(py, s, e) ==>
                    Iterate(Get(e.payload, "recovered_by_tool_call_ids")).Some?)
  {
    hide Iterate, VerifiedTerminal;
    assert forall e :: NamesFailed(py, s, e) <==> IsRecoveryEvent(e) && IsFailedCall(s.toolCalls, RecoveredId(py, e));
  }

  ghost predicate DecisionNamesFit(py: Platform, events: seq<Event>, i: nat)
    requires i < |events|
  {
    && Fits("decision_event_" + Decimal(events[i].eventId), 256)
    && forall id :: IsAboutCall(py, events, {id}, i) ==> |id| <= 256
  }

  lemma DecisionNames(py: Platform, events: seq<Event>)
    ensures DecisionsFit(py, events)
            <==> forall i: nat | i < |events| :: Decides(events[i]) ==> DecisionNamesFit(py, events, i)
  {
    hide IsAboutCall, Decides, Decimal;
    forall i: nat | i < |events| && Decides(events[i])
      ensures var d := DecisionOf(py, events[i], events[i + 1..]);
              d in Decisions(py, events) && (DecisionFits(d) <==> DecisionNamesFit(py, events, i))
    {
      OneDecisionFits(py, events, i);
    }
    forall d | d in Decisions(py, events)
      ensures exists i: nat :: i < |events| && Decides(events[i]) && d == DecisionOf(py, events[i], events[i + 1..])
    {
      var i := DecisionFrom(py, events, d);
      DecidesIs(events[i]);
    }
    hide DecisionFits, DecisionNamesFit, DecisionOf;
  }

  lemma OneDecisionFits(py: Platform, events: seq<Event>, i: nat)
    requires i < |events| && Decides(events[i])
    ensures var d := DecisionOf(py, events[i], events[i + 1..]);
            d in Decisions(py, events) && (DecisionFits(d) <==> DecisionNamesFit(py, events, i))
  {
    hide IsAboutCall, LinkedCall, Decimal, Decisions;
    var d := DecisionIs(py, events, i, "");
    forall id: string ensures d.toolCallId == Some(id) <==> IsAboutCall(py, events, {id}, i) {
      var same := DecisionIs(py, events, i, id);
    }
    DecidesIs(events[i]);
    DecisionsAt(py, events);
    assert d == DecisionOf(py, events[i], events[i + 1..]);
    assert d.toolCallId.Some? ==> IsAboutCall(py, events, {d.toolCallId.value}, i);
  }
}
