/**
 Failed tool calls and their recovery, as the adapter and the trajectory scorer count them,
 and the duplicate-fingerprint counter both share.
 */
module ToolRecovery {
  import opened Counting
  import opened Prelude
  import opened Ordering
  import opened Json
  import opened Snapshot
  import opened DeepResearchAdapter

  /** The order both modules sort calls into: creation time, then id. */
  predicate CallLe(a: ToolCall, b: ToolCall) {
    a.createdAt < b.createdAt || (a.createdAt == b.createdAt && !StrLt(b.toolCallId, a.toolCallId))
  }

  datatype Health = Health(successful: nat, failed: nat, recovered: nat, unrecovered: int, explicitRecovered: nat)

  /** Ids of failed calls that some recovery event confirms. */
  ghost function ExplicitIds(py: Platform, terminal: bool, events: seq<Event>, calls: seq<ToolCall>,
                             evidenceIds: set<string>): set<string> {
    set c | c in calls && terminal && FailedStatus(c.status) && ExplicitlyRecovered(py, events, calls, evidenceIds, c)
      :: c.toolCallId
  }

  ghost predicate HealthIs(py: Platform, s: Snapshot, h: Health) {
    var terminal := VerifiedTerminal(s.run, s.contracts);
    var evidenceIds := EvidenceCallIds(s.evidence);
    && h.successful == Count(s.toolCalls, (c: ToolCall) => c.status == "completed")
    && h.failed == FailedCount(s.toolCalls)
    && h.recovered == RecoveredCount(py, terminal, s.events, s.toolCalls, evidenceIds)
    && h.unrecovered == h.failed - h.recovered
    && h.explicitRecovered == |ExplicitIds(py, terminal, s.events, s.toolCalls, evidenceIds)|
  }

  /** The calls by id, as a dictionary. */
  ghost predicate ById(calls: seq<ToolCall>, byId: map<string, ToolCall>) {
    byId.Keys == ToolIds(calls) && forall c | c in calls :: byId[c.toolCallId] == c
  }

  lemma SameIdSameCall(calls: seq<ToolCall>, c: ToolCall, d: ToolCall)
    requires UniqueToolIds(calls) && c in calls && d in calls && c.toolCallId == d.toolCallId
    ensures c == d
  {
    var i :| 0 <= i < |calls| && calls[i] == c;
    var j :| 0 <= j < |calls| && calls[j] == d;
    assert i == j;
  }

  method IndexCalls(calls: seq<ToolCall>) returns (byId: map<string, ToolCall>)
    requires UniqueToolIds(calls)
    ensures ById(calls, byId)
  {
    byId := map[];
    for i := 0 to |calls|
      invariant byId.Keys == ToolIds(calls[..i])
      invariant forall j | 0 <= j < i :: calls[j].toolCallId in byId && byId[calls[j].toolCallId] == calls[j]
    {
      assert calls[..i + 1] == calls[..i] + [calls[i]];
      byId := byId[calls[i].toolCallId := calls[i]];
    }
    assert calls[..|calls|] == calls;
  }

  /** What one recovery event contributes, `None` when iterating its list raises. */
  function Confirmed(py: Platform, byId: map<string, ToolCall>, evidenceIds: set<string>, e: Event): Option<set<string>> {
    var failedId := RecoveredId(py, e);
    if !IsRecoveryEvent(e) || failedId !in byId || !FailedStatus(byId[failedId].status) then Some({})
    else
      match Iterate(Get(e.payload, "recovered_by_tool_call_ids"))
      case None => None
      case Some(items) =>
        if exists x | x in items :: Str(py, x) in byId
             && byId[Str(py, x)].status == "completed" && byId[Str(py, x)].taskId == byId[failedId].taskId
             && byId[Str(py, x)].toolCallId in evidenceIds
        then Some({failedId}) else Some({})
  }

  lemma ConfirmedMeaning(py: Platform, calls: seq<ToolCall>, byId: map<string, ToolCall>, evidenceIds: set<string>, e: Event)
    requires UniqueToolIds(calls) && ById(calls, byId)
    ensures Confirmed(py, byId, evidenceIds, e).None? <==>
              IsRecoveryEvent(e) && IsFailedCall(calls, RecoveredId(py, e))
              && Iterate(Get(e.payload, "recovered_by_tool_call_ids")).None?
    ensures Confirmed(py, byId, evidenceIds, e).Some? ==> forall c | c in calls && FailedStatus(c.status) ::
              c.toolCallId in Confirmed(py, byId, evidenceIds, e).value <==> ConfirmsRecovery(py, calls, evidenceIds, e, c)
    ensures Confirmed(py, byId, evidenceIds, e).Some? ==> forall id | id in Confirmed(py, byId, evidenceIds, e).value ::
              IsFailedCall(calls, id)
  {
    hide Iterate, RecoveredId, FailedStatus, IsRecoveryEvent;
    forall id | id in byId ensures byId[id] in calls && byId[id].toolCallId == id {
      var c :| c in calls && c.toolCallId == id;
    }
  }

  /** The loop over recovery events; `None` when Python raises. */
  method CollectExplicit(py: Platform, events: seq<Event>, calls: seq<ToolCall>, evidenceIds: set<string>)
    returns (r: Option<set<string>>)
    requires UniqueToolIds(calls)
    ensures r.Some? <==> RecoveryIterable(py, true, events, calls)
    ensures r.Some? ==> r.value == ExplicitIds(py, true, events, calls, evidenceIds)
  {
    hide Confirmed, ConfirmsRecovery, IsFailedCall;
    var byId := IndexCalls(calls);
    var found: set<string> := {};
    for i := 0 to |events|
      invariant forall id | id in found :: IsFailedCall(calls, id)
      invariant forall c | c in calls && FailedStatus(c.status) ::
          c.toolCallId in found <==> exists j | 0 <= j < i :: ConfirmsRecovery(py, calls, evidenceIds, events[j], c)
      invariant forall j | 0 <= j < i :: Confirmed(py, byId, evidenceIds, events[j]).Some?
    {
      ConfirmedMeaning(py, calls, byId, evidenceIds, events[i]);
      var more := Confirmed(py, byId, evidenceIds, events[i]);
      if more.None? {
        assert events[i] in events;
        return None;
      }
      found := found + more.value;
    }
    AllConfirmed(py, events, calls, byId, evidenceIds);
    FoundIsExplicit(py, events, calls, evidenceIds, found);
    return Some(found);
  }

  lemma AllConfirmed(py: Platform, events: seq<Event>, calls: seq<ToolCall>, byId: map<string, ToolCall>,
                     evidenceIds: set<string>)
    requires UniqueToolIds(calls) && ById(calls, byId)
    requires forall j | 0 <= j < |events| :: Confirmed(py, byId, evidenceIds, events[j]).Some?
    ensures RecoveryIterable(py, true, events, calls)
  {
    hide Confirmed, ConfirmsRecovery, IsFailedCall;
    forall e | e in events ensures Confirmed(py, byId, evidenceIds, e).Some? {
      ConfirmedMeaning(py, calls, byId, evidenceIds, e);
    }
    forall e | e in events && IsRecoveryEvent(e) && IsFailedCall(calls, RecoveredId(py, e))
      ensures Iterate(Get(e.payload, "recovered_by_tool_call_ids")).Some?
    {
      ConfirmedMeaning(py, calls, byId, evidenceIds, e);
    }
  }

  lemma FoundIsExplicit(py: Platform, events: seq<Event>, calls: seq<ToolCall>, evidenceIds: set<string>, found: set<string>)
    requires forall id | id in found :: IsFailedCall(calls, id)
    requires forall c | c in calls && FailedStatus(c.status) ::
               c.toolCallId in found <==> exists j | 0 <= j < |events| :: ConfirmsRecovery(py, calls, evidenceIds, events[j], c)
    ensures found == ExplicitIds(py, true, events, calls, evidenceIds)
  {
    hide ConfirmsRecovery;
    forall c | c in calls && FailedStatus(c.status)
      ensures c.toolCallId in found <==> ExplicitlyRecovered(py, events, calls, evidenceIds, c)
    {
      if e :| e in events && ConfirmsRecovery(py, calls, evidenceIds, e, c) {
        var j :| 0 <= j < |events| && events[j] == e;
      }
    }
  }

  /** The three sums of `_tool_failure_metrics` over the sorted calls. */
  method TallyCalls(ordered: seq<ToolCall>, calls: seq<ToolCall>, terminal: bool, evidenceIds: set<string>,
                    confirmed: set<string>)
    returns (successful: nat, failed: nat, recovered: nat)
    ensures successful == Count(ordered, (c: ToolCall) => c.status == "completed")
    ensures failed == Count(ordered, (c: ToolCall) => FailedStatus(c.status))
    ensures recovered == Count(ordered, (c: ToolCall) => RecoveredHere(calls, terminal, evidenceIds, confirmed, c))
  {
    hide RecoveredHere, FailedStatus;
    ghost var isDone := (c: ToolCall) => c.status == "completed";
    ghost var isFailed := (c: ToolCall) => FailedStatus(c.status);
    ghost var isRecovered := (c: ToolCall) => RecoveredHere(calls, terminal, evidenceIds, confirmed, c);
    successful, failed, recovered := 0, 0, 0;
    for i := 0 to |ordered|
      invariant successful == Count(ordered[..i], isDone)
      invariant failed == Count(ordered[..i], isFailed)
      invariant recovered == Count(ordered[..i], isRecovered)
    {
      CountStep(ordered, i, isDone);
      CountStep(ordered, i, isFailed);
      CountStep(ordered, i, isRecovered);
      if ordered[i].status == "completed" {
        successful := successful + 1;
      }
      if FailedStatus(ordered[i].status) {
        failed := failed + 1;
      }
      if RecoveredHere(calls, terminal, evidenceIds, confirmed, ordered[i]) {
        recovered := recovered + 1;
      }
    }
    assert ordered[..|ordered|] == ordered;
  }

  /** The recovery test as the loop makes it, on the set of confirmed ids. */
  predicate RecoveredHere(calls: seq<ToolCall>, terminal: bool, evidenceIds: set<string>, confirmed: set<string>, c: ToolCall) {
    && FailedStatus(c.status)
    && (|| c.toolCallId in confirmed || LaterSuccess(calls, c)
        || (terminal && OutcomeRecovered(calls, evidenceIds, c)))
  }

  /** `_tool_failure_metrics`; `None` when Python raises. */
  method ToolFailureMetrics(py: Platform, s: Snapshot) returns (r: Option<Health>)
    requires Valid(s)
    ensures r.Some? <==> RecoveryIterable(py, VerifiedTerminal(s.run, s.contracts), s.events, s.toolCalls)
    ensures r.Some? ==> HealthIs(py, s, r.value)
  {
    hide VerifiedTerminal, EvidenceCallIds, ExplicitlyRecovered, RecoveryIterable, HealthIs;
    var terminal := VerifiedTerminal(s.run, s.contracts);
    var evidenceIds := EvidenceCallIds(s.evidence);
    var ordered := SortBy(s.toolCalls, CallLe);
    var confirmed: set<string> := {};
    NotTerminalIterable(py, s.events, s.toolCalls);
    if terminal {
      var collected := CollectExplicit(py, s.events, s.toolCalls, evidenceIds);
      if collected.None? {
        return None;
      }
      confirmed := collected.value;
    }
    assert confirmed == ExplicitIds(py, terminal, s.events, s.toolCalls, evidenceIds);
    var successful, failed, recovered := TallyCalls(ordered, s.toolCalls, terminal, evidenceIds, confirmed);
    var unrecovered := failed as int - recovered as int;
    var health := Health(successful, failed, recovered, unrecovered, |confirmed|);
    TalliesAreHealth(py, s, ordered, confirmed, health);
    return Some(health);
  }

  lemma NotTerminalIterable(py: Platform, events: seq<Event>, calls: seq<ToolCall>)
    ensures RecoveryIterable(py, false, events, calls)
  {
  }

  lemma TalliesAreHealth(py: Platform, s: Snapshot, ordered: seq<ToolCall>, confirmed: set<string>, h: Health)
    requires Valid(s) && multiset(ordered) == multiset(s.toolCalls)
    requires confirmed == ExplicitIds(py, VerifiedTerminal(s.run, s.contracts), s.events, s.toolCalls, EvidenceCallIds(s.evidence))
    requires h.successful == Count(ordered, (c: ToolCall) => c.status == "completed")
    requires h.failed == Count(ordered, (c: ToolCall) => FailedStatus(c.status))
    requires h.recovered == Count(ordered, (c: ToolCall) =>
               RecoveredHere(s.toolCalls, VerifiedTerminal(s.run, s.contracts), EvidenceCallIds(s.evidence), confirmed, c))
    requires h.unrecovered == h.failed - h.recovered && h.explicitRecovered == |confirmed|
    ensures HealthIs(py, s, h)
  {
    hide VerifiedTerminal, EvidenceCallIds, FailedStatus, ExplicitIds, ExplicitlyRecovered, LaterSuccess, OutcomeRecovered;
    var terminal, evidenceIds := VerifiedTerminal(s.run, s.contracts), EvidenceCallIds(s.evidence);
    var here := (c: ToolCall) => RecoveredHere(s.toolCalls, terminal, evidenceIds, confirmed, c);
    CountPermutation(ordered, s.toolCalls, (c: ToolCall) => c.status == "completed");
    CountPermutation(ordered, s.toolCalls, (c: ToolCall) => FailedStatus(c.status));
    CountPermutation(ordered, s.toolCalls, here);
    forall c | c in s.toolCalls
      ensures here(c) == (FailedStatus(c.status) && Recovered(py, terminal, s.events, s.toolCalls, evidenceIds, c))
    {
      if FailedStatus(c.status) {
        ExplicitById(py, terminal, s, evidenceIds, c);
      }
    }
    RecoveredCongruent(py, terminal, s, evidenceIds, here);
  }

  lemma RecoveredCongruent(py: Platform, terminal: bool, s: Snapshot, evidenceIds: set<string>, p: ToolCall -> bool)
    requires forall c | c in s.toolCalls ::
               p(c) == (FailedStatus(c.status) && Recovered(py, terminal, s.events, s.toolCalls, evidenceIds, c))
    ensures Count(s.toolCalls, p) == RecoveredCount(py, terminal, s.events, s.toolCalls, evidenceIds)
  {
    hide Recovered, FailedStatus;
    CountCongruent(s.toolCalls, p,
      (c: ToolCall) => FailedStatus(c.status) && Recovered(py, terminal, s.events, s.toolCalls, evidenceIds, c));
  }

  /** A failed call's id is confirmed exactly when an event confirms the call. */
  lemma ExplicitById(py: Platform, terminal: bool, s: Snapshot, evidenceIds: set<string>, c: ToolCall)
    requires UniqueToolIds(s.toolCalls) && c in s.toolCalls && FailedStatus(c.status)
    ensures c.toolCallId in ExplicitIds(py, terminal, s.events, s.toolCalls, evidenceIds)
            <==> terminal && ExplicitlyRecovered(py, s.events, s.toolCalls, evidenceIds, c)
  {
    hide ExplicitlyRecovered, FailedStatus;
    if d :| d in s.toolCalls && terminal && FailedStatus(d.status)
            && ExplicitlyRecovered(py, s.events, s.toolCalls, evidenceIds, d) && d.toolCallId == c.toolCallId
    {
      SameIdSameCall(s.toolCalls, c, d);
    }
  }

  // ----- Conservation, and agreement of the two modules -----

  ghost function IdsWhere(calls: seq<ToolCall>, p: ToolCall -> bool): set<string> {
    set c | c in calls && p(c) :: c.toolCallId
  }

  lemma IdsWhereStep(calls: seq<ToolCall>, p: ToolCall -> bool)
    requires calls != []
    ensures IdsWhere(calls, p) == IdsWhere(calls[1..], p) + if p(calls[0]) then {calls[0].toolCallId} else {}
  {
    assert calls == [calls[0]] + calls[1..];
  }

  lemma {:induction false} IdSetBound(calls: seq<ToolCall>, p: ToolCall -> bool)
    ensures |IdsWhere(calls, p)| <= Count(calls, p)
  {
    if calls == [] {
      assert IdsWhere(calls, p) == {};
    } else {
      hide IdsWhere;
      IdSetBound(calls[1..], p);
      IdsWhereStep(calls, p);
    }
  }

  /** Recovered and unrecovered failures add up, and explicit recoveries are recoveries. */
  lemma RecoveryConserved(py: Platform, s: Snapshot, h: Health)
    requires HealthIs(py, s, h)
    ensures h.recovered + h.unrecovered == h.failed && 0 <= h.unrecovered
    ensures h.explicitRecovered <= h.recovered
    ensures h.successful + h.failed <= |s.toolCalls|
  {
    hide ExplicitlyRecovered, LaterSuccess, OutcomeRecovered;
    var terminal, evidenceIds := VerifiedTerminal(s.run, s.contracts), EvidenceCallIds(s.evidence);
    var isRecovered := (c: ToolCall) => FailedStatus(c.status) && Recovered(py, terminal, s.events, s.toolCalls, evidenceIds, c);
    var isExplicit := (c: ToolCall) =>
      terminal && FailedStatus(c.status) && ExplicitlyRecovered(py, s.events, s.toolCalls, evidenceIds, c);
    var isFailed := (c: ToolCall) => FailedStatus(c.status);
    RecoveredCongruent(py, terminal, s, evidenceIds, isRecovered);
    CountImplies(s.toolCalls, isRecovered, isFailed);
    IdSetBound(s.toolCalls, isExplicit);
    CountImplies(s.toolCalls, isExplicit, isRecovered);
    assert ExplicitIds(py, terminal, s.events, s.toolCalls, evidenceIds)
           == IdsWhere(s.toolCalls, isExplicit);
    DisjointCounts(s.toolCalls, (c: ToolCall) => c.status == "completed", isFailed);
  }

  lemma {:induction false} DisjointCounts<T>(s: seq<T>, p: T -> bool, q: T -> bool)
    requires forall x | x in s :: !(p(x) && q(x))
    ensures Count(s, p) + Count(s, q) <= |s|
  {
    if s != [] {
      DisjointCounts(s[1..], p, q);
    }
  }

  /** Failures without a later success of the same task: the trajectory scorer's count. */
  function UnrecoveredCount(calls: seq<ToolCall>): nat {
    Count(calls, (c: ToolCall) => FailedStatus(c.status) && !LaterSuccess(calls, c))
  }

  /** `_unrecovered_failure_count`: the scorer's loop over the sorted calls. */
  method UnrecoveredFailures(calls: seq<ToolCall>) returns (unrecovered: nat)
    ensures unrecovered == UnrecoveredCount(calls)
  {
    hide FailedStatus, Supersedes;
    var ordered := SortBy(calls, CallLe);
    PermutationFacts(ordered, calls);
    ghost var open := (c: ToolCall) => FailedStatus(c.status) && !LaterSuccess(calls, c);
    unrecovered := 0;
    for i := 0 to |ordered|
      invariant unrecovered == Count(ordered[..i], open)
    {
      CountStep(ordered, i, open);
      if FailedStatus(ordered[i].status) {
        var recovered := AnySupersedes(ordered, ordered[i]);
        assert LaterSuccess(ordered, ordered[i]) == LaterSuccess(calls, ordered[i]);
        if !recovered {
          unrecovered := unrecovered + 1;
        }
      }
    }
    assert ordered[..|ordered|] == ordered;
    CountPermutation(ordered, calls, open);
    CountCongruent(calls, open, (c: ToolCall) => FailedStatus(c.status) && !LaterSuccess(calls, c));
  }

  /** `any(...)` over the candidates. */
  method AnySupersedes(calls: seq<ToolCall>, failed: ToolCall) returns (found: bool)
    ensures found == LaterSuccess(calls, failed)
  {
    hide Supersedes;
    for j := 0 to |calls|
      invariant forall k | 0 <= k < j :: !Supersedes(calls[k], failed)
    {
      if Supersedes(calls[j], failed) {
        assert calls[j] in calls;
        return true;
      }
    }
    return false;
  }

  /** The scorer never counts fewer unrecovered failures; both agree unless the run verifiably ended well. */
  lemma ScorerAgrees(py: Platform, s: Snapshot, h: Health)
    requires HealthIs(py, s, h)
    ensures UnrecoveredCount(s.toolCalls) >= h.unrecovered
    ensures !VerifiedTerminal(s.run, s.contracts) ==> UnrecoveredCount(s.toolCalls) == h.unrecovered
  {
    hide ExplicitlyRecovered, LaterSuccess, OutcomeRecovered;
    var terminal, evidenceIds := VerifiedTerminal(s.run, s.contracts), EvidenceCallIds(s.evidence);
    var isRecovered := (c: ToolCall) => FailedStatus(c.status) && Recovered(py, terminal, s.events, s.toolCalls, evidenceIds, c);
    var later := (c: ToolCall) => FailedStatus(c.status) && LaterSuccess(s.toolCalls, c);
    var open := (c: ToolCall) => FailedStatus(c.status) && !LaterSuccess(s.toolCalls, c);
    RecoveredCongruent(py, terminal, s, evidenceIds, isRecovered);
    CountImplies(s.toolCalls, later, isRecovered);
    SplitCount(s.toolCalls, (c: ToolCall) => FailedStatus(c.status), later, open);
    CountCongruent(s.toolCalls, open, (c: ToolCall) => FailedStatus(c.status) && !LaterSuccess(s.toolCalls, c));
    if !terminal {
      CountCongruent(s.toolCalls, later, isRecovered);
    }
  }

  lemma {:induction false} SplitCount<T>(s: seq<T>, whole: T -> bool, a: T -> bool, b: T -> bool)
    requires forall x | x in s :: whole(x) == (a(x) || b(x)) && !(a(x) && b(x))
    ensures Count(s, whole) == Count(s, a) + Count(s, b)
  {
    if s != [] {
      SplitCount(s[1..], whole, a, b);
    }
  }
}
