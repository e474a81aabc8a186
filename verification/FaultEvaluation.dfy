/** Whether evaluating a mutant raises an error that evaluating its original does not. */
module FaultEvaluation {
  import opened Prelude
  import opened Json
  import opened Snapshot
  import opened Trace
  import opened DeepResearchAdapter
  import opened Evaluation
  import opened FaultInjection
  import opened FaultDetection

  // ----- When it does -----

  /** A recovery event that names the copied call, with a list that Python cannot iterate. */
  predicate NamesCopyBadly(py: Platform, e: Event, copyId: string) {
    IsRecoveryEvent(e) && RecoveredId(py, e) == copyId && Iterate(Get(e.payload, "recovered_by_tool_call_ids")).None?
  }

  /** The snapshot holds such an event, and its first call, which is the one copied, has failed. While no call
      has the copied id the list is never looked at. */
  predicate CopyRevealsBadList(py: Platform, s: Snapshot) {
    && VerifiedTerminal(s.run, s.contracts)
    && s.toolCalls != [] && FailedStatus(s.toolCalls[0].status)
    && exists e | e in s.events :: NamesCopyBadly(py, e, Duplicate(s.toolCalls[0]).toolCallId)
  }

  /** The id of the copied call is too long for a span. */
  predicate CopiedIdTooLong(calls: seq<ToolCall>) {
    calls != [] && |calls[0].toolCallId| + 10 > MAX_ID
  }

  predicate NamesTooLong(py: Platform, e: Event) {
    var id := Get(e.payload, "tool_call_id");
    Truthy(id) && |Str(py, id)| > MAX_ID
  }

  /** Decision event `i` declares no call and is no agent decision, and the failure event that becomes the first
      tool event after it names a call by an id too long for decision evidence. */
  predicate FallsToLongId(py: Platform, events: seq<Event>, i: nat) {
    && i < |events| && IsDecisionEvent(events[i]) && events[i].eventType != "agent.decision"
    && !Truthy(Get(events[i].payload, "tool_call_id"))
    && exists j | i < j < |events| :: NextFailure(events, i, j) && NamesTooLong(py, events[j])
  }

  predicate DropRevealsLongId(py: Platform, events: seq<Event>) {
    exists i | 0 <= i < |events| :: FallsToLongId(py, events, i)
  }

  /** The number of the appended event makes a span id that is too long: it has more than 250 digits. */
  predicate NextEventIdTooLong(events: seq<Event>) {
    |Decimal(MaxEventId(events) + 1)| > 250
  }

  /** What in a snapshot that evaluates makes its mutant raise. */
  predicate MutantRaises(py: Platform, s: Snapshot, f: Fault) {
    match f
    case DuplicateToolCall => CopiedIdTooLong(s.toolCalls) || CopyRevealsBadList(py, s)
    case DecisionToolLinkLoss => DropRevealsLongId(py, s.events)
    case SecretLeakage => NextEventIdTooLong(s.events)
    case _ => false
  }

  /** Given that the original evaluates, its mutant does unless the fault runs into a limit of the trace schema, or
      a copied call makes a bad recovery list count. */
  lemma MutantEvaluates(py: Platform, s: Snapshot, f: Fault)
    requires EvaluateSnapshot(py, s).Ok? && Injected(s, f).Ok?
    ensures EvaluateSnapshot(py, Injected(s, f).value).Ok? <==> !MutantRaises(py, s, f)
  {
    RaisesWhen(py, s, f);
    hide *;
    EvaluatesWhen(py, s);
    EvaluatesWhen(py, Injected(s, f).value);
    MutantRecords(s, f);
    MutantDecisions(py, s, f);
    MutantEnvelope(s, f);
    MutantVerification(py, s, f);
    MutantUsage(py, s, f);
    if f == DuplicateToolCall && CopyRevealsBadList(py, s) {
      CopyBreaksRecovery(py, s);
    } else {
      MutantRecovery(py, s, f);
    }
  }

  lemma RaisesWhen(py: Platform, s: Snapshot, f: Fault)
    ensures MutantRaises(py, s, f) <==>
              || (f == DuplicateToolCall && (CopiedIdTooLong(s.toolCalls) || CopyRevealsBadList(py, s)))
              || (f == DecisionToolLinkLoss && DropRevealsLongId(py, s.events))
              || (f == SecretLeakage && NextEventIdTooLong(s.events))
  {
    hide CopiedIdTooLong, CopyRevealsBadList, DropRevealsLongId, NextEventIdTooLong;
  }

  /** Everything that must hold for the pipeline not to raise. */
  lemma EvaluatesWhen(py: Platform, s: Snapshot)
    ensures EvaluateSnapshot(py, s).Ok? <==>
              && RecordsFit(s.events, s.toolCalls) && VerificationIterable(py, s.events)
              && RecoveryIterable(py, VerifiedTerminal(s.run, s.contracts), s.events, s.toolCalls)
              && DecisionsFit(py, s.events) && EnvelopeFits(s.run, s.task)
              && ReportedToolCalls(py, s.run.usage).Some?
  {
    hide RecordsFit, VerificationIterable, RecoveryIterable, DecisionsFit, EnvelopeFits, ReportedToolCalls, Spans,
         Decisions, VerifiedTerminal;
  }

  // ----- Spans -----

  /** The mutant's records fit the trace schema unless the copied id or the appended event's number does not. */
  lemma MutantRecords(s: Snapshot, f: Fault)
    requires RecordsFit(s.events, s.toolCalls) && Injected(s, f).Ok?
    ensures var m := Injected(s, f).value;
            RecordsFit(m.events, m.toolCalls) <==>
              && !(f == DuplicateToolCall && CopiedIdTooLong(s.toolCalls))
              && !(f == SecretLeakage && NextEventIdTooLong(s.events))
  {
    if f == DuplicateToolCall {
      CopyFits(s);
    } else if f == SecretLeakage {
      SecretEventFits(s);
    } else {
      OldRecords(s, f);
    }
  }

  lemma CopyFits(s: Snapshot)
    requires RecordsFit(s.events, s.toolCalls) && Injected(s, DuplicateToolCall).Ok?
    ensures var m := Injected(s, DuplicateToolCall).value;
            RecordsFit(m.events, m.toolCalls) <==> !CopiedIdTooLong(s.toolCalls)
  {
    DuplicateMutant(s);
    hide EventFits, WithToolCalls, NestedUsage;
    var m, c := Injected(s, DuplicateToolCall).value, Duplicate(s.toolCalls[0]);
    assert s.toolCalls[0] in s.toolCalls && c in m.toolCalls;
    assert |c.toolCallId| == |s.toolCalls[0].toolCallId| + 10;
    assert CallFits(c) <==> !CopiedIdTooLong(s.toolCalls);
    hide CallFits;
    assert forall x :: x in m.toolCalls <==> x in s.toolCalls || x == c;
  }

  lemma SecretEventFits(s: Snapshot)
    requires RecordsFit(s.events, s.toolCalls)
    ensures var m := Injected(s, SecretLeakage).value;
            RecordsFit(m.events, m.toolCalls) <==> !NextEventIdTooLong(s.events)
  {
    var m, e := Injected(s, SecretLeakage).value, SecretEvent(s);
    assert EventFits(e) <==> !NextEventIdTooLong(s.events) by {
      hide Decimal, MaxEventId;
      assert |"debug.recorded"| == 14 && |"event_" + Decimal(e.eventId)| == 6 + |Decimal(e.eventId)|;
    }
    hide EventFits, CallFits, NextEventIdTooLong, SecretEvent;
    assert forall x :: x in m.events <==> x in s.events || x == e;
  }

  lemma OldRecords(s: Snapshot, f: Fault)
    requires f != DuplicateToolCall && f != SecretLeakage
    requires RecordsFit(s.events, s.toolCalls) && Injected(s, f).Ok?
    ensures RecordsFit(Injected(s, f).value.events, Injected(s, f).value.toolCalls)
  {
    hide EventFits, ShortName, WithToolCalls, NestedUsage, DropCompleted, FirstRequired;
    DropCompletedMembers(s.events);
    if s.toolCalls != [] {
      assert s.toolCalls[0] in s.toolCalls;
    }
  }

  // ----- Decision evidence -----

  /** The mutant's decision evidence fits unless a decision falls to a link that is too long. */
  lemma MutantDecisions(py: Platform, s: Snapshot, f: Fault)
    requires DecisionsFit(py, s.events) && Injected(s, f).Ok?
    ensures DecisionsFit(py, Injected(s, f).value.events)
            <==> !(f == DecisionToolLinkLoss && DropRevealsLongId(py, s.events))
  {
    hide DecisionsFit, DropRevealsLongId, WithToolCalls, NestedUsage, DropCompleted;
    if f == DecisionToolLinkLoss {
      DroppedDecisionsFit(py, s.events);
    } else if f == SecretLeakage {
      QuietEventAppended(py, s.events, SecretEvent(s));
      DecisionsDecideFit(py, s.events, s.events + [SecretEvent(s)]);
    }
  }

  lemma DecisionsDecideFit(py: Platform, a: seq<Event>, b: seq<Event>)
    requires Decisions(py, a) == Decisions(py, b)
    ensures DecisionsFit(py, a) <==> DecisionsFit(py, b)
  {
    hide Decisions, DecisionFits;
  }

  lemma {:induction false} ToolEventIgnores(later: seq<Event>, e: Event, declared: Json)
    requires !MatchesTool(e, declared)
    ensures FirstToolEvent(later + [e], declared) == FirstToolEvent(later, declared)
  {
    hide MatchesTool;
    if later == [] {
      assert later + [e] == [e] && [e][1..] == [];
    } else {
      assert (later + [e])[1..] == later[1..] + [e];
      ToolEventIgnores(later[1..], e, declared);
    }
  }

  /** An event that is neither a decision nor a tool result changes no decision before it. */
  lemma {:induction false} QuietAppended(py: Platform, events: seq<Event>, e: Event)
    requires !IsDecisionEvent(e) && forall declared :: !MatchesTool(e, declared)
    ensures Decisions(py, events + [e]) == Decisions(py, events)
  {
    hide IsDecisionEvent, MatchesTool;
    if events == [] {
      assert events + [e] == [e] && [e][1..] == [];
    } else {
      assert (events + [e])[1..] == events[1..] + [e];
      QuietAppended(py, events[1..], e);
      ToolEventIgnores(events[1..], e, Get(events[0].payload, "tool_call_id"));
      assert DecisionOf(py, events[0], events[1..] + [e]) == DecisionOf(py, events[0], events[1..]);
    }
  }

  lemma QuietEventAppended(py: Platform, events: seq<Event>, e: Event)
    requires e.eventType == "debug.recorded"
    ensures Decisions(py, events + [e]) == Decisions(py, events)
  {
    assert e.eventType[0] == 'd' && "agent.decision"[0] == 'a' && "plan.replanning"[0] == 'p';
    assert "verification.completed"[0] == 'v' && "tool.completed"[0] == 't' && "tool.failed"[0] == 't';
    QuietAppended(py, events, e);
  }

  // ----- Decision evidence once completion events are gone -----

  lemma FallsShifts(py: Platform, events: seq<Event>, i: nat)
    requires events != []
    ensures FallsToLongId(py, events[1..], i) <==> FallsToLongId(py, events, i + 1)
  {
    hide NamesTooLong, IsDecisionEvent, Truthy;
    var later := events[1..];
    forall j | 0 <= j < |later| && NextFailure(later, i, j) ensures NextFailure(events, i + 1, j + 1) {
      assert forall k | i + 1 < k < j + 1 :: events[k] == later[k - 1];
    }
    forall j | 0 < j < |events| && NextFailure(events, i + 1, j)
      ensures NextFailure(later, i, j - 1) && later[j - 1] == events[j]
    {
    }
    forall j | 0 < j < |events| ensures events[j] == later[j - 1] {
    }
  }

  lemma DropRevealsCons(py: Platform, events: seq<Event>)
    requires events != []
    ensures DropRevealsLongId(py, events) <==> FallsToLongId(py, events, 0) || DropRevealsLongId(py, events[1..])
  {
    hide FallsToLongId;
    if i :| 0 <= i < |events| && FallsToLongId(py, events, i) {
      if i > 0 {
        FallsShifts(py, events, i - 1);
      }
    }
    if i :| 0 <= i < |events[1..]| && FallsToLongId(py, events[1..], i) {
      FallsShifts(py, events, i);
    }
  }

  /** A failure that fits is a tool event that fits. */
  lemma FailureIsToolEvent(later: seq<Event>, declared: Json)
    requires FirstFailure(later, declared).Some?
    ensures FirstToolEvent(later, declared).Some?
  {
    FirstFailureIsLeast(later, declared);
    FirstToolEventIsLeast(later, declared);
    hide FirstFailure, FirstToolEvent;
  }

  /** The link of the head decision when completion events are gone: none, as before, or the next failure's. */
  lemma HeadFalls(py: Platform, events: seq<Event>)
    requires events != [] && IsDecisionEvent(events[0]) && DecisionFits(DecisionOf(py, events[0], events[1..]))
    ensures DecisionFits(DecisionOf(py, events[0], DropCompleted(events[1..]))) <==> !FallsToLongId(py, events, 0)
  {
    var e, later := events[0], events[1..];
    var declared := Get(e.payload, "tool_call_id");
    FirstAfterDrop(later, declared);
    assert LinkedCall(e, DropCompleted(later)) == FallbackLink(e, later);
    if FirstFailure(later, declared).Some? {
      FailureIsToolEvent(later, declared);
    }
    if !Truthy(declared) {
      NextFailureIsFirst(events, declared);
    }
    hide FirstToolEvent, FirstFailure, DropCompleted, NextFailure, IsDecisionEvent, Decimal, Truthy, Str;
    assert !Truthy(JNull) by { NullIsFalse(); }
  }

  lemma NullIsFalse()
    ensures !Truthy(JNull)
  {
  }

  lemma FitsAppend(a: seq<Decision>, b: seq<Decision>)
    ensures (forall d | d in a + b :: DecisionFits(d)) <==> (forall d | d in a :: DecisionFits(d)) && (forall d | d in b :: DecisionFits(d))
  {
    hide DecisionFits;
    assert forall d :: d in a + b <==> d in a || d in b;
  }

  lemma DecisionsFitCons(py: Platform, e: Event, rest: seq<Event>)
    ensures DecisionsFit(py, [e] + rest) <==>
              (IsDecisionEvent(e) ==> DecisionFits(DecisionOf(py, e, rest))) && DecisionsFit(py, rest)
  {
    hide DecisionFits, DecisionOf, IsDecisionEvent;
    assert ([e] + rest)[1..] == rest;
    FitsAppend(if IsDecisionEvent(e) then [DecisionOf(py, e, rest)] else [], Decisions(py, rest));
  }

  lemma {:induction false} DroppedDecisionsFit(py: Platform, events: seq<Event>)
    requires DecisionsFit(py, events)
    ensures DecisionsFit(py, DropCompleted(events)) <==> !DropRevealsLongId(py, events)
  {
    if events != [] {
      var e, later := events[0], events[1..];
      assert DropCompleted(events)
             == if e.eventType != "tool.completed" then [e] + DropCompleted(later) else DropCompleted(later);
      hide *;
      assert events == [e] + later;
      DecisionsFitCons(py, e, later);
      DroppedDecisionsFit(py, later);
      DropRevealsCons(py, events);
      DecisionsFitCons(py, e, DropCompleted(later));
      if IsDecisionEvent(e) {
        HeadFalls(py, events);
      } else {
        OnlyDecisionsFall(py, events);
      }
      if e.eventType == "tool.completed" {
        CompletionIsNoDecision(e);
      }
    }
  }

  lemma OnlyDecisionsFall(py: Platform, events: seq<Event>)
    requires events != [] && !IsDecisionEvent(events[0])
    ensures !FallsToLongId(py, events, 0)
  {
  }

  // ----- The trace, the lists and the usage record -----

  lemma MutantEnvelope(s: Snapshot, f: Fault)
    requires EnvelopeFits(s.run, s.task) && Injected(s, f).Ok?
    ensures EnvelopeFits(Injected(s, f).value.run, Injected(s, f).value.task)
  {
    hide WithToolCalls, NestedUsage, DropCompleted, MaxEventId, FirstRequired, ShortName;
    assert |"active"| == 6;
  }

  lemma MutantVerification(py: Platform, s: Snapshot, f: Fault)
    requires VerificationIterable(py, s.events) && Injected(s, f).Ok?
    ensures VerificationIterable(py, Injected(s, f).value.events)
  {
    hide WithToolCalls, FailureNames;
    DropCompletedMembers(s.events);
    assert |SecretEvent(s).eventType| == 14;
  }

  lemma MutantRecovery(py: Platform, s: Snapshot, f: Fault)
    requires RecoveryIterable(py, VerifiedTerminal(s.run, s.contracts), s.events, s.toolCalls) && Injected(s, f).Ok?
    requires !(f == DuplicateToolCall && CopyRevealsBadList(py, s))
    ensures var m := Injected(s, f).value;
            RecoveryIterable(py, VerifiedTerminal(m.run, m.contracts), m.events, m.toolCalls)
  {
    hide WithToolCalls, RecoveredId, Iterate, VerifiedTerminal, IsFailedCall, Injected;
    var m := Injected(s, f).value;
    if VerifiedTerminal(m.run, m.contracts) {
      StillTerminal(s, f);
      forall e | e in m.events && IsRecoveryEvent(e) && IsFailedCall(m.toolCalls, RecoveredId(py, e))
        ensures Iterate(Get(e.payload, "recovered_by_tool_call_ids")).Some?
      {
        MutantCalls(s, f, RecoveredId(py, e));
        RecoveryEventKept(s, f, e);
        if !IsFailedCall(s.toolCalls, RecoveredId(py, e)) {
          assert !NamesCopyBadly(py, e, Duplicate(s.toolCalls[0]).toolCallId);
        }
      }
    }
  }

  lemma RecoveryEventKept(s: Snapshot, f: Fault, e: Event)
    requires Injected(s, f).Ok? && e in Injected(s, f).value.events && IsRecoveryEvent(e)
    ensures e in s.events
  {
    hide WithToolCalls, MaxEventId;
    DropCompletedMembers(s.events);
    assert |SecretEvent(s).eventType| == 14 && |"tool.recovery_confirmed"| == 23;
  }

  lemma CopyBreaksRecovery(py: Platform, s: Snapshot)
    requires Injected(s, DuplicateToolCall).Ok? && CopyRevealsBadList(py, s)
    ensures var m := Injected(s, DuplicateToolCall).value;
            !RecoveryIterable(py, VerifiedTerminal(m.run, m.contracts), m.events, m.toolCalls)
  {
    hide WithToolCalls, RecoveredId, Iterate;
    var m, copy := Injected(s, DuplicateToolCall).value, Duplicate(s.toolCalls[0]);
    assert m.toolCalls[|s.toolCalls|] == copy;
    assert IsFailedCall(m.toolCalls, copy.toolCallId);
    var e :| e in s.events && NamesCopyBadly(py, e, copy.toolCallId);
    assert e in m.events;
  }

  lemma UnmetIsNotTerminal(run: Run, contracts: seq<Contract>, i: nat)
    requires i < |contracts| && contracts[i].required && contracts[i].passed == Some(false)
    ensures !VerifiedTerminal(run, contracts)
  {
    assert contracts[i] in contracts;
  }

  lemma StillTerminal(s: Snapshot, f: Fault)
    requires Injected(s, f).Ok?
    requires VerifiedTerminal(Injected(s, f).value.run, Injected(s, f).value.contracts)
    ensures VerifiedTerminal(s.run, s.contracts)
  {
    hide WithToolCalls, DropCompleted, MaxEventId;
    var m := Injected(s, f).value;
    assert f == RequiredContractFailure ==> !VerifiedTerminal(m.run, m.contracts) by {
      if f == RequiredContractFailure {
        UnmetIsNotTerminal(m.run, m.contracts, FirstRequired(s.contracts));
      }
    }
  }

  /** Only duplication adds a failed call, and only the copy of a failed one. */
  lemma MutantCalls(s: Snapshot, f: Fault, id: string)
    requires Injected(s, f).Ok? && IsFailedCall(Injected(s, f).value.toolCalls, id)
    ensures || IsFailedCall(s.toolCalls, id)
            || (f == DuplicateToolCall && s.toolCalls != [] && FailedStatus(s.toolCalls[0].status)
                && id == Duplicate(s.toolCalls[0]).toolCallId)
  {
    hide WithToolCalls, DropCompleted, MaxEventId;
    var m := Injected(s, f).value;
    if f == ToolResultLoss {
      assert |"running"| == 7;
    }
  }

  lemma MutantUsage(py: Platform, s: Snapshot, f: Fault)
    requires ReportedToolCalls(py, s.run.usage).Some? && Injected(s, f).Ok?
    ensures ReportedToolCalls(py, Injected(s, f).value.run.usage).Some?
  {
    hide WithToolCalls, ReportedToolCalls;
    if f == ToolAccountingDrift {
      OverwrittenToolCalls(py, s.run.usage, NestedUsage(s.run.usage).value, |s.toolCalls| + 7);
    }
    if f == DuplicateToolCall {
      OverwrittenToolCalls(py, s.run.usage, NestedUsage(s.run.usage).value, |s.toolCalls| + 1);
    }
  }
}
