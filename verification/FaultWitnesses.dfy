/** Concrete snapshots: faults that go unnoticed, and mutants that raise where their original does not. */
module FaultWitnesses {
  import opened Prelude
  import opened Json
  import opened Snapshot
  import opened Trace
  import opened DeepResearchAdapter
  import opened Evaluation
  import opened FaultInjection
  import opened FaultDetection
  import opened FaultEvaluation

  /** A run without usage figures, report or checkpoints. */
  function Bare(events: seq<Event>, calls: seq<ToolCall>, evidence: seq<Evidence>, contracts: seq<Contract>): Snapshot {
    Snapshot(Run("run_1", "session_1", "web", "standard", "completed", None, map[], None, 0, None, None, 0),
             None, None, events, calls, evidence, contracts, [], map[])
  }

  function BareCall(status: string): ToolCall {
    ToolCall("call_1", None, "search", "web", status, None, false, None, 0, None)
  }

  /** The fault's mutant exists and evaluates, but its expected check is not among the failures. */
  ghost predicate Unnoticed(py: Platform, s: Snapshot, f: Fault) {
    && Valid(s) && EvaluateSnapshot(py, s).Ok? && Injected(s, f).Ok?
    && EvaluateSnapshot(py, Injected(s, f).value).Ok?
    && ExpectedCheck(f) !in EvaluateSnapshot(py, Injected(s, f).value).value.failureCategories
  }

  lemma UnnoticedWhen(py: Platform, s: Snapshot, f: Fault)
    requires Valid(s) && EvaluateSnapshot(py, s).Ok? && Injected(s, f).Ok?
    requires !MutantRaises(py, s, f) && !Detectable(py, s, f)
    ensures Unnoticed(py, s, f)
  {
    hide *;
    MutantEvaluates(py, s, f);
    DetectedIffDetectable(py, s, f);
    UnnoticedMeans(py, s, f);
  }

  lemma UnnoticedMeans(py: Platform, s: Snapshot, f: Fault)
    requires Valid(s) && EvaluateSnapshot(py, s).Ok? && Injected(s, f).Ok?
    requires EvaluateSnapshot(py, Injected(s, f).value).Ok?
    requires ExpectedCheck(f) !in EvaluateSnapshot(py, Injected(s, f).value).value.failureCategories
    ensures Unnoticed(py, s, f)
  {
    hide Valid, EvaluateSnapshot, Injected, ExpectedCheck;
  }

  /** The fault's mutant exists, and only it raises. */
  ghost predicate OnlyMutantRaises(py: Platform, s: Snapshot, f: Fault) {
    && Valid(s) && EvaluateSnapshot(py, s).Ok? && Injected(s, f).Ok?
    && EvaluateSnapshot(py, Injected(s, f).value).Err?
  }

  lemma OnlyMutantRaisesWhen(py: Platform, s: Snapshot, f: Fault)
    requires Valid(s) && EvaluateSnapshot(py, s).Ok? && Injected(s, f).Ok? && MutantRaises(py, s, f)
    ensures OnlyMutantRaises(py, s, f)
  {
    MutantEvaluates(py, s, f);
    hide Valid, EvaluateSnapshot, Injected, MutantRaises;
  }

  /** Records without recovery and verification events that fit the trace schema evaluate. */
  lemma BareEvaluates(py: Platform, events: seq<Event>, calls: seq<ToolCall>, evidence: seq<Evidence>, contracts: seq<Contract>)
    requires forall e | e in events :: !IsRecoveryEvent(e) && !FailedVerification(e)
    requires RecordsFit(events, calls) && DecisionsFit(py, events)
    ensures EvaluateSnapshot(py, Bare(events, calls, evidence, contracts)).Ok?
  {
    BareEnvelope(py, events, calls, evidence, contracts);
    hide EvaluateSnapshot, IsRecoveryEvent, FailedVerification, VerifiedTerminal, RecordsFit, DecisionsFit, EnvelopeFits,
         ReportedToolCalls;
    EvaluatesWhen(py, Bare(events, calls, evidence, contracts));
  }

  lemma BareEnvelope(py: Platform, events: seq<Event>, calls: seq<ToolCall>, evidence: seq<Evidence>, contracts: seq<Contract>)
    ensures var s := Bare(events, calls, evidence, contracts);
            EnvelopeFits(s.run, s.task) && ReportedToolCalls(py, s.run.usage).Some?
  {
    assert |"deepresearch_" + "run_1"| == 18 && |"completed"| == 9;
  }

  lemma BareCallFits(status: string)
    ensures CallFits(BareCall(status))
  {
    assert |"call_1"| == 6 && |"search"| == 6;
  }

  lemma NoDecisions(py: Platform)
    ensures DecisionsFit(py, [])
  {
  }

  lemma InjectedIdKnown(py: Platform)
    ensures !Detectable(py, Bare([], [], [Evidence("ev_injected_missing", None, "web", None, None)], []),
                        CitationCorruption)
  {
    var e := Evidence("ev_injected_missing", None, "web", None, None);
    assert e in [e] && "ev_injected_missing" in EvidenceIds([e]);
    assert CitedIds(None) == [];
  }

  /** Citation corruption, when the injected id happens to be an evidence id. */
  lemma CitationUnnoticed(py: Platform)
    ensures Unnoticed(py, Bare([], [], [Evidence("ev_injected_missing", None, "web", None, None)], []),
                      CitationCorruption)
  {
    var evidence := [Evidence("ev_injected_missing", None, "web", None, None)];
    var s := Bare([], [], evidence, []);
    assert Valid(s) && HasRecord(s, CitationCorruption) && !MutantRaises(py, s, CitationCorruption);
    NoDecisions(py);
    assert RecordsFit([], []);
    hide *;
    BareEvaluates(py, [], [], evidence, []);
    InjectionRaises(s, CitationCorruption);
    InjectedIdKnown(py);
    UnnoticedWhen(py, s, CitationCorruption);
  }

  lemma BareCallCopied(status: string, events: seq<Event>, contracts: seq<Contract>)
    ensures Injected(Bare(events, [BareCall(status)], [], contracts), DuplicateToolCall).Ok?
  {
    hide Injected;
    var s := Bare(events, [BareCall(status)], [], contracts);
    assert |"call_1"| == 6 && |"call_1" + "_duplicate"| == 16;
    assert !CopiedIdTaken(s.toolCalls);
    InjectionRaises(s, DuplicateToolCall);
  }

  lemma NoFingerprintRepeats(py: Platform)
    ensures !Detectable(py, Bare([], [BareCall("completed")], [], []), DuplicateToolCall)
  {
    var calls := [BareCall("completed")];
    assert calls[..0] == [] && DuplicateFingerprints(calls) == 0;
  }

  lemma ShortCopy(py: Platform)
    ensures !MutantRaises(py, Bare([], [BareCall("completed")], [], []), DuplicateToolCall)
  {
    assert |"call_1"| == 6;
  }

  /** A copied call without an argument hash. */
  lemma DuplicateUnnoticed(py: Platform)
    ensures Unnoticed(py, Bare([], [BareCall("completed")], [], []), DuplicateToolCall)
  {
    var s := Bare([], [BareCall("completed")], [], []);
    BareCallFits("completed");
    NoDecisions(py);
    ShortCopy(py);
    assert Valid(s) && RecordsFit([], s.toolCalls);
    hide *;
    BareEvaluates(py, [], [BareCall("completed")], [], []);
    BareCallCopied("completed", [], []);
    NoFingerprintRepeats(py);
    UnnoticedWhen(py, s, DuplicateToolCall);
  }

  function Replanning(callId: string): Event {
    Event(1, "plan.replanning", None, map["tool_call_id" := JStr(callId)], 0)
  }

  lemma ReplanningKeepsLink(py: Platform)
    ensures !Detectable(py, Bare([Replanning("call_1")], [BareCall("completed")], [], []), DecisionToolLinkLoss)
  {
    var events, calls := [Replanning("call_1")], [BareCall("completed")];
    assert |"plan.replanning"| == 15 && |"agent.decision"| == 14;
    assert calls[0] in calls && "call_1" in ToolIds(calls);
    assert KeepsLink(py, events, ToolIds(calls), 0);
  }

  lemma ReplanningFits(py: Platform)
    ensures !IsRecoveryEvent(Replanning("call_1")) && !FailedVerification(Replanning("call_1"))
    ensures EventFits(Replanning("call_1")) && DecisionsFit(py, [Replanning("call_1")])
    ensures Replanning("call_1").eventId == 1
  {
    var e := Replanning("call_1");
    assert |"plan.replanning"| == 15 && |"tool.recovery_confirmed"| == 23 && |"verification.completed"| == 22
           && |"agent.decision"| == 14;
    assert |Decimal(1)| == 1;
    assert [e][1..] == [] && Decisions(py, [e]) == [DecisionOf(py, e, [])];
    assert |"event_" + Decimal(1)| == 7 && |"decision_event_" + Decimal(1)| == 16 && |"call_1"| == 6;
  }

  lemma ReplanningFallsNowhere(py: Platform)
    ensures !MutantRaises(py, Bare([Replanning("call_1")], [BareCall("completed")], [], []), DecisionToolLinkLoss)
  {
    hide NextFailure;
  }

  /** Lost completion events, when a replanning decision declares its own call. */
  lemma LinkLossUnnoticed(py: Platform)
    ensures Unnoticed(py, Bare([Replanning("call_1")], [BareCall("completed")], [], []), DecisionToolLinkLoss)
  {
    var e, c := Replanning("call_1"), BareCall("completed");
    var s := Bare([e], [c], [], []);
    ReplanningFits(py);
    ReplanningFallsNowhere(py);
    BareCallFits("completed");
    assert Valid(s) && HasRecord(s, DecisionToolLinkLoss);
    assert RecordsFit(s.events, s.toolCalls);
    hide *;
    BareEvaluates(py, [e], [c], [], []);
    InjectionRaises(s, DecisionToolLinkLoss);
    ReplanningKeepsLink(py);
    UnnoticedWhen(py, s, DecisionToolLinkLoss);
  }

  function BadRecovery(): Event {
    Event(1, "tool.recovery_confirmed", None,
          map["failed_tool_call_id" := JStr("call_1_duplicate"), "recovered_by_tool_call_ids" := JNum(5.0)], 0)
  }

  /** A verified run whose only call failed, with a recovery event that names the copied call. */
  function RevealingRun(): Snapshot {
    Bare([BadRecovery()], [BareCall("failed")], [], [Contract("contract_1", "sections", true, Some(true))])
  }

  lemma NamesNoCall(py: Platform)
    ensures RecoveredId(py, BadRecovery()) == "call_1_duplicate" && !FailedVerification(BadRecovery())
    ensures !IsFailedCall([BareCall("failed")], "call_1_duplicate")
  {
    assert |"call_1"| == 6 && |"call_1_duplicate"| == 16;
    assert |"tool.recovery_confirmed"| == 23 && |"verification.completed"| == 22;
  }

  lemma BadRecoveryFits(py: Platform)
    ensures EventFits(BadRecovery()) && DecisionsFit(py, [BadRecovery()])
  {
    var e := BadRecovery();
    assert |"tool.recovery_confirmed"| == 23 && |"verification.completed"| == 22 && |"agent.decision"| == 14
           && |"plan.replanning"| == 15;
    assert |Decimal(1)| == 1 && |"event_" + Decimal(1)| == 7;
    assert [e][1..] == [] && Decisions(py, [e]) == [];
  }

  lemma RevealingRunEvaluates(py: Platform)
    ensures EvaluateSnapshot(py, RevealingRun()).Ok?
  {
    var s := RevealingRun();
    BadRecoveryFits(py);
    BareCallFits("failed");
    assert RecordsFit(s.events, s.toolCalls);
    BareEnvelope(py, s.events, s.toolCalls, [], s.contracts);
    hide EvaluateSnapshot, ReportedToolCalls, RecordsFit, DecisionsFit, EnvelopeFits, BadRecovery, FailedVerification,
         IsFailedCall, RecoveredId, VerifiedTerminal;
    NamesNoCall(py);
    EvaluatesWhen(py, s);
  }

  lemma RevealingRunIs()
    ensures var s := RevealingRun();
            s == Bare(s.events, [BareCall("failed")], [], s.contracts)
  {
    hide BadRecovery, BareCall;
  }

  lemma BadRecoveryNamesCopy(py: Platform)
    ensures NamesCopyBadly(py, BadRecovery(), Duplicate(BareCall("failed")).toolCallId)
  {
    assert |"call_1"| == 6 && |"call_1_duplicate"| == 16 && "call_1" + "_duplicate" == "call_1_duplicate";
  }

  lemma RevealsBadList(py: Platform)
    ensures MutantRaises(py, RevealingRun(), DuplicateToolCall) && Valid(RevealingRun())
  {
    var s := RevealingRun();
    BadRecoveryNamesCopy(py);
    assert s.contracts[0] in s.contracts && s.events[0] in s.events && s.events[0].eventId == 1;
    assert FailedStatus(s.toolCalls[0].status);
    hide BadRecovery, BareCall, NamesCopyBadly, Duplicate, FailedStatus;
  }

  /** The copied id makes a recovery list count that nobody looked at. */
  lemma BadListRevealed(py: Platform)
    ensures OnlyMutantRaises(py, RevealingRun(), DuplicateToolCall)
  {
    hide *;
    var s := RevealingRun();
    RevealingRunEvaluates(py);
    RevealingRunIs();
    BareCallCopied("failed", s.events, s.contracts);
    RevealsBadList(py);
    OnlyMutantRaisesWhen(py, s, DuplicateToolCall);
  }

  function Letters(n: nat): string {
    seq(n, _ => 'a')
  }

  function LongCall(): ToolCall {
    BareCall("completed").(toolCallId := Letters(250))
  }

  lemma LongCallFacts(py: Platform)
    ensures CallFits(LongCall()) && CopiedIdTooLong([LongCall()]) && !CopiedIdTaken([LongCall()])
  {
    assert |"search"| == 6 && |LongCall().toolCallId| == 250;
    assert |Letters(250) + "_duplicate"| == 260;
  }

  /** A call id of 250 characters is fine, its copy of 260 is not. */
  lemma LongCopyRejected(py: Platform)
    ensures OnlyMutantRaises(py, Bare([], [LongCall()], [], []), DuplicateToolCall)
  {
    var s := Bare([], [LongCall()], [], []);
    LongCallFacts(py);
    NoDecisions(py);
    assert Valid(s) && RecordsFit([], s.toolCalls) && MutantRaises(py, s, DuplicateToolCall);
    assert HasRecord(s, DuplicateToolCall) && UsageWritable(s.run.usage);
    hide *;
    BareEvaluates(py, [], [LongCall()], [], []);
    InjectionRaises(s, DuplicateToolCall);
    OnlyMutantRaisesWhen(py, s, DuplicateToolCall);
  }

  function Replan(): Event {
    Event(1, "plan.replanning", None, map[], 0)
  }

  function Finished(): Event {
    Event(2, "tool.completed", None, map["tool_call_id" := JStr("call_1")], 0)
  }

  function Broken(): Event {
    Event(3, "tool.failed", None, map["tool_call_id" := JStr(Letters(300))], 0)
  }

  lemma ReplanDecides(py: Platform)
    ensures Decisions(py, [Replan(), Finished(), Broken()]) == [Decision(1, REPLAN, Some("call_1"))]
  {
    var events := [Replan(), Finished(), Broken()];
    assert |"plan.replanning"| == 15 && |"tool.completed"| == 14 && |"tool.failed"| == 11 && |"verification.completed"| == 22;
    assert "tool.completed"[0] == 't' && "agent.decision"[0] == 'a';
    assert events[1..] == [Finished(), Broken()] && events[1..][1..] == [Broken()] && [Broken()][1..] == [];
    assert !IsDecisionEvent(Finished()) && !IsDecisionEvent(Broken());
    assert [Finished(), Broken()][1..] == [Broken()] && Decisions(py, [Broken()]) == [];
    assert Decisions(py, [Finished(), Broken()]) == [];
    assert MatchesTool(Finished(), JNull);
    assert LinkedCall(Replan(), [Finished(), Broken()]) == JStr("call_1");
  }

  lemma ReplanRunFits(py: Platform)
    ensures RecordsFit([Replan(), Finished(), Broken()], [BareCall("completed")])
    ensures DecisionsFit(py, [Replan(), Finished(), Broken()])
    ensures forall e | e in [Replan(), Finished(), Broken()] :: !IsRecoveryEvent(e) && !FailedVerification(e)
  {
    BareCallFits("completed");
    ReplanDecides(py);
    assert |Decimal(1)| == 1 && |Decimal(2)| == 1 && |Decimal(3)| == 1 && |"call_1"| == 6;
    assert |"decision_event_" + Decimal(1)| == 16 && |"event_" + Decimal(1)| == 7 && |"event_" + Decimal(2)| == 7
           && |"event_" + Decimal(3)| == 7;
    assert |"plan.replanning"| == 15 && |"tool.completed"| == 14 && |"tool.failed"| == 11
           && |"verification.completed"| == 22 && |"tool.recovery_confirmed"| == 23;
  }

  lemma ReplanFalls(py: Platform)
    ensures DropRevealsLongId(py, [Replan(), Finished(), Broken()])
  {
    var events := [Replan(), Finished(), Broken()];
    assert |"tool.completed"| == 14 && |"tool.failed"| == 11 && |"agent.decision"| == 14;
    assert "plan.replanning"[0] == 'p' && "agent.decision"[0] == 'a';
    assert |Letters(300)| == 300 && NamesTooLong(py, events[2]);
    assert NextFailure(events, 0, 2);
    assert FallsToLongId(py, events, 0);
  }

  lemma ReplanRunValid()
    ensures var s := Bare([Replan(), Finished(), Broken()], [BareCall("completed")], [], []);
            Valid(s) && HasRecord(s, DecisionToolLinkLoss)
  {
    hide Letters;
  }

  /** A replanning decision linked to a completed call falls to a failure event whose id is too long. */
  lemma LongLinkRejected(py: Platform)
    ensures OnlyMutantRaises(py, Bare([Replan(), Finished(), Broken()], [BareCall("completed")], [], []), DecisionToolLinkLoss)
  {
    var s := Bare([Replan(), Finished(), Broken()], [BareCall("completed")], [], []);
    assert s.events == [Replan(), Finished(), Broken()];
    ReplanRunValid();
    hide *;
    ReplanRunFits(py);
    ReplanFalls(py);
    RaisesWhen(py, s, DecisionToolLinkLoss);
    BareEvaluates(py, s.events, [BareCall("completed")], [], []);
    InjectionRaises(s, DecisionToolLinkLoss);
    OnlyMutantRaisesWhen(py, s, DecisionToolLinkLoss);
  }

  function Power10(k: nat): (p: nat)
    ensures p > 0
  {
    if k == 0 then 1 else 10 * Power10(k - 1)
  }

  /** A number has at most `k` digits exactly when it is below ten to the `k`. */
  lemma {:induction false} Digits(n: nat, k: nat)
    requires k > 0
    ensures |Decimal(n)| <= k <==> n < Power10(k)
    decreases k
  {
    if n >= 10 {
      if k == 1 {
        assert Power10(1) == 10 * Power10(0);
        assert |Decimal(n / 10)| > 0;
      } else {
        Digits(n / 10, k - 1);
      }
    } else {
      AtLeastTen(k);
    }
  }

  lemma {:induction false} AtLeastTen(k: nat)
    requires k > 0
    ensures Power10(k) >= 10
  {
    if k > 1 {
      AtLeastTen(k - 1);
    }
  }

  lemma LargestNumber(k: nat)
    requires k > 0
    ensures Power10(k) >= 10 && |Decimal(Power10(k) - 1)| <= k < |Decimal(Power10(k))|
  {
    AtLeastTen(k);
    Digits(Power10(k) - 1, k);
    Digits(Power10(k), k);
  }

  /** An event numbered `n`. */
  function Resumed(n: nat): Event {
    Event(n, "run.resumed", None, map[], 0)
  }

  lemma ResumedIsQuiet(py: Platform, n: nat)
    ensures !IsRecoveryEvent(Resumed(n)) && !FailedVerification(Resumed(n)) && !IsDecisionEvent(Resumed(n))
    ensures DecisionsFit(py, [Resumed(n)]) && MaxEventId([Resumed(n)]) == n
  {
    var e := Resumed(n);
    assert |"run.resumed"| == 11 && |"verification.completed"| == 22 && |"tool.recovery_confirmed"| == 23
           && |"agent.decision"| == 14 && |"plan.replanning"| == 15;
    assert [e][1..] == [] && Decisions(py, [e]) == [] && MaxEventId([]) == 0;
  }

  /** Event `n` fits and event `n + 1` does not: `n` has 250 digits and `n + 1` one more. */
  lemma LastNumberFits(py: Platform, n: nat)
    requires |Decimal(n)| <= 250 < |Decimal(n + 1)|
    ensures RecordsFit([Resumed(n)], []) && NextEventIdTooLong([Resumed(n)])
  {
    ResumedIsQuiet(py, n);
    hide Decimal, MaxEventId;
    assert |"run.resumed"| == 11 && |"event_" + Decimal(n)| == 6 + |Decimal(n)|;
    assert EventFits(Resumed(n)) by { DecimalNotEmpty(n); }
  }

  lemma DecimalNotEmpty(n: nat)
    ensures Decimal(n) != ""
  {
  }

  /** The event that carries the secret gets a number of 251 digits. */
  lemma LongEventNumberRejected(py: Platform)
    ensures OnlyMutantRaises(py, Bare([Resumed(Power10(250) - 1)], [], [], []), SecretLeakage)
  {
    hide *;
    LargestNumber(250);
    NumberRejected(py, Power10(250) - 1);
  }

  lemma OneEventValid(n: nat)
    requires n >= 1
    ensures Valid(Bare([Resumed(n)], [], [], [])) && HasRecord(Bare([Resumed(n)], [], [], []), SecretLeakage)
  {
  }

  lemma NumberRejected(py: Platform, n: nat)
    requires n >= 1 && |Decimal(n)| <= 250 < |Decimal(n + 1)|
    ensures OnlyMutantRaises(py, Bare([Resumed(n)], [], [], []), SecretLeakage)
  {
    var s := Bare([Resumed(n)], [], [], []);
    assert s.events == [Resumed(n)];
    OneEventValid(n);
    hide *;
    RaisesWhen(py, s, SecretLeakage);
    ResumedIsQuiet(py, n);
    LastNumberFits(py, n);
    BareEvaluates(py, [Resumed(n)], [], [], []);
    InjectionRaises(s, SecretLeakage);
    OnlyMutantRaisesWhen(py, s, SecretLeakage);
  }
}
