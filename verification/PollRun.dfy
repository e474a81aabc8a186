/** Waiting for a run: polling until a deadline, then at most one cancellation and a grace period. */
module PollRun {
  import opened Prelude
  import opened RealArithmetic

  /** What one request to the service delivers. */
  datatype Response = Payload(status: string) | HttpFailure | NotAnObject

  const TERMINAL_RUN_STATUSES: set<string> :=
    {"completed", "failed", "budget_exhausted", "cancelled", "paused", "needs_user_input", "interrupted"}

  /** `str(payload.get("status") or "unknown") in TERMINAL_RUN_STATUSES`. */
  predicate Terminal(r: Response) {
    r.Payload? && (if r.status == "" then "unknown" else r.status) in TERMINAL_RUN_STATUSES
  }

  datatype PollError = HttpError | ValueError | TimedOut

  function ErrorOf(r: Response): PollError
    requires !r.Payload?
  {
    if r.HttpFailure? then HttpError else ValueError
  }

  /** A request that was made, what it returned, and the clock at that moment. */
  datatype Action = Poll(response: Response, at: real) | Cancel(response: Response, at: real)

  /** `ceil(x / step)`. */
  function CeilDiv(x: real, step: real): int
    requires step > 0.0
  {
    -((-(x / step)).Floor)
  }

  /** The time after `n` sleeps of at least `interval`. */
  function Slept(n: nat, interval: real): real {
    n as real * interval
  }

  lemma SleptAtLeast(n: nat, interval: real, span: real)
    requires interval > 0.0 && n as real >= span / interval
    ensures Slept(n, interval) >= span
  {
    var q := span / interval;
    assert q * interval == span;
    MulNonNegative(n as real - q, interval);
    assert (n as real - q) * interval == n as real * interval - q * interval;
  }

  /** Sleeping `n` times without passing `span` means `n` is below the ceiling. */
  lemma SleptBelow(n: nat, interval: real, span: real)
    requires interval > 0.0 && Slept(n, interval) < span
    ensures n < CeilDiv(span, interval)
  {
    hide Slept;
    if n as real >= span / interval {
      SleptAtLeast(n, interval, span);
    }
  }

  /** How often a phase of this length can poll. */
  function MaxPolls(span: real, interval: real): int
    requires interval > 0.0
  {
    (if CeilDiv(span, interval) > 0 then CeilDiv(span, interval) else 0) + 1
  }

  // ----- The clock -----

  /** Every request, clock reading and sleep takes some extra time: `delays(n)` is that of the n-th of them. */
  datatype Clock = Clock(start: real, delays: nat -> real, interval: real) {
    ghost predicate Valid() {
      interval > 0.0 && forall n :: delays(n) >= 0.0
    }
  }

  function SumDelays(delays: nat -> real, ops: nat): real {
    if ops == 0 then 0.0 else SumDelays(delays, ops - 1) + delays(ops - 1)
  }

  /** The reading after `ops` operations, `sleeps` of which slept for the interval. */
  function TimeAt(c: Clock, ops: nat, sleeps: nat): real {
    c.start + SumDelays(c.delays, ops) + Slept(sleeps, c.interval)
  }

  lemma {:induction false} DelaysGrow(delays: nat -> real, a: nat, b: nat)
    requires a <= b && forall n :: delays(n) >= 0.0
    ensures SumDelays(delays, a) <= SumDelays(delays, b)
    decreases b
  {
    if a < b {
      DelaysGrow(delays, a, b - 1);
    }
  }

  /** Each further sleep costs at least the interval. */
  lemma SleepsCost(c: Clock, ops: nat, sleeps: nat, moreOps: nat, moreSleeps: nat)
    requires c.Valid()
    ensures TimeAt(c, ops + moreOps, sleeps + moreSleeps) >= TimeAt(c, ops, sleeps) + Slept(moreSleeps, c.interval)
  {
    DelaysGrow(c.delays, ops, ops + moreOps);
    assert Slept(sleeps + moreSleeps, c.interval) == Slept(sleeps, c.interval) + Slept(moreSleeps, c.interval) by {
      assert (sleeps + moreSleeps) as real == sleeps as real + moreSleeps as real;
    }
  }

  // ----- One polling phase -----

  /** Where a phase begins: its first request, and the operations and sleeps before it. */
  datatype Phase = Phase(first: nat, ops: nat, sleeps: nat, origin: real, span: real)

  datatype Stop = Arrived(payload: Response) | RequestFailed(response: Response) | Expired

  /** The clock at the i-th poll of a phase. */
  function PollTime(c: Clock, p: Phase, i: nat): real {
    TimeAt(c, p.ops + 3 * i + 1, p.sleeps + i)
  }

  /** Whether the reading after the i-th poll finds the deadline passed. */
  predicate Late(c: Clock, p: Phase, i: nat) {
    TimeAt(c, p.ops + 3 * i + 2, p.sleeps + i) >= p.origin + p.span
  }

  predicate Pending(r: Response) {
    r.Payload? && !Terminal(r)
  }

  /** The i-th poll of the phase settles nothing: its response is pending and the deadline has not passed. */
  predicate Waits(c: Clock, p: Phase, responses: nat -> Response, i: nat) {
    Pending(responses(p.first + i)) && !Late(c, p, i)
  }

  /** The polls of a phase, in order; every one but the last was pending and in time, and the last decides. */
  ghost predicate PhaseRun(c: Clock, p: Phase, responses: nat -> Response, polls: seq<Action>, stop: Stop) {
    && polls != []
    && (forall i: nat | i < |polls| :: polls[i] == Poll(responses(p.first + i), PollTime(c, p, i)))
    && (forall i: nat | i < |polls| - 1 :: Waits(c, p, responses, i))
    && var last := polls[|polls| - 1].response;
       match stop
       case Arrived(payload) => last == payload && Terminal(last)
       case RequestFailed(response) => last == response && !last.Payload?
       case Expired => Pending(last) && Late(c, p, |polls| - 1)
  }

  /** As long as the deadline has not passed, few sleeps have. */
  lemma InTime(c: Clock, p: Phase, i: nat)
    requires c.Valid() && TimeAt(c, p.ops, p.sleeps) >= p.origin && !Late(c, p, i)
    ensures i + 2 <= MaxPolls(p.span, c.interval)
  {
    SleepsCost(c, p.ops, p.sleeps, 3 * i + 2, i);
    SleptBelow(i, c.interval, p.span);
  }

  /** Polls made so far, the last of them not yet looked at. */
  ghost predicate Polling(c: Clock, p: Phase, responses: nat -> Response, polls: seq<Action>, payload: Response) {
    && polls != [] && payload == polls[|polls| - 1].response
    && (forall i: nat | i < |polls| :: polls[i] == Poll(responses(p.first + i), PollTime(c, p, i)))
    && (forall i: nat | i < |polls| - 1 :: Waits(c, p, responses, i))
  }

  lemma PollingStarts(c: Clock, p: Phase, responses: nat -> Response)
    ensures Polling(c, p, responses, [Poll(responses(p.first), PollTime(c, p, 0))], responses(p.first))
  {
    hide PollTime;
  }

  lemma PollingStep(c: Clock, p: Phase, responses: nat -> Response, polls: seq<Action>, payload: Response)
    requires Polling(c, p, responses, polls, payload) && Pending(payload) && !Late(c, p, |polls| - 1)
    ensures var next := responses(p.first + |polls|);
            Polling(c, p, responses, polls + [Poll(next, PollTime(c, p, |polls|))], next)
  {
    hide PollTime, Late, Pending;
    var last: nat := |polls| - 1;
    assert polls[last] == Poll(responses(p.first + last), PollTime(c, p, last));
    assert Waits(c, p, responses, last);
  }

  lemma PollingStops(c: Clock, p: Phase, responses: nat -> Response, polls: seq<Action>, payload: Response)
    requires Polling(c, p, responses, polls, payload)
    ensures !payload.Payload? ==> PhaseRun(c, p, responses, polls, RequestFailed(payload))
    ensures Terminal(payload) ==> PhaseRun(c, p, responses, polls, Arrived(payload))
    ensures Pending(payload) && Late(c, p, |polls| - 1) ==> PhaseRun(c, p, responses, polls, Expired)
  {
    hide PollTime, Late, Pending, Terminal, Waits;
  }

  /** Polls until the run is terminal, a request fails, or the phase's time is over. */
  method PollPhase(c: Clock, p: Phase, responses: nat -> Response) returns (polls: seq<Action>, stop: Stop)
    requires c.Valid() && TimeAt(c, p.ops, p.sleeps) >= p.origin
    ensures PhaseRun(c, p, responses, polls, stop) && |polls| <= MaxPolls(p.span, c.interval)
  {
    assert 1 <= MaxPolls(p.span, c.interval);
    hide Terminal, PollTime, Late, CeilDiv, MaxPolls, Polling, PhaseRun, TimeAt;
    var payload := responses(p.first);
    polls := [Poll(payload, PollTime(c, p, 0))];
    PollingStarts(c, p, responses);
    while true
      invariant polls != [] && |polls| <= MaxPolls(p.span, c.interval)
      invariant Polling(c, p, responses, polls, payload)
      decreases MaxPolls(p.span, c.interval) - |polls|
    {
      PollingStops(c, p, responses, polls, payload);
      if !payload.Payload? {
        return polls, RequestFailed(payload);
      }
      if Terminal(payload) {
        return polls, Arrived(payload);
      }
      if Late(c, p, |polls| - 1) {
        return polls, Expired;
      }
      InTime(c, p, |polls| - 1);
      PollingStep(c, p, responses, polls, payload);
      payload := responses(p.first + |polls|);
      polls := polls + [Poll(payload, PollTime(c, p, |polls|))];
    }
  }

  // ----- The whole protocol -----

  function MainPhase(c: Clock, timeout: real): Phase {
    Phase(0, 0, 0, c.start, timeout)
  }

  /** When the deadline is found passed: the operations and sleeps so far. */
  function OpsAtDeadline(polls: nat): nat
    requires polls > 0
  {
    3 * (polls - 1) + 2
  }

  function CancelTime(c: Clock, polls: nat): real
    requires polls > 0
  {
    TimeAt(c, OpsAtDeadline(polls) + 1, polls - 1)
  }

  /** The grace period starts at the reading after the cancellation. */
  function GracePhase(c: Clock, polls: nat, grace: real): Phase
    requires polls > 0
  {
    var ops := OpsAtDeadline(polls) + 2;
    Phase(polls + 1, ops, polls - 1, TimeAt(c, ops, polls - 1), grace)
  }

  /** `_poll_run`, against any responses and a clock that never runs slower than the sleeps. */
  method PollUntilTerminal(c: Clock, responses: nat -> Response, timeout: real, cancelOnTimeout: bool, grace: real)
    returns (outcome: Result<Response, PollError>, main: seq<Action>, after: seq<Action>)
    requires c.Valid()
    ensures Run(c, responses, timeout, cancelOnTimeout, grace, outcome, main, after)
    ensures |main| <= MaxPolls(timeout, c.interval) && |after| <= 1 + MaxPolls(grace, c.interval)
  {
    assert TimeAt(c, 0, 0) >= c.start;
    var stop;
    main, stop := PollPhase(c, MainPhase(c, timeout), responses);
    after := [];
    match stop {
      case Arrived(payload) =>
        outcome := Ok(payload);
      case RequestFailed(response) =>
        outcome := Err(ErrorOf(response));
      case Expired =>
        outcome := Err(TimedOut);
        if cancelOnTimeout {
          var reply := responses(|main|);
          after := [Cancel(reply, CancelTime(c, |main|))];
          if reply.Payload? {
            var polls, graceStop := PollPhase(c, GracePhase(c, |main|, grace), responses);
            after := after + polls;
            assert after[1..] == polls;
          }
        }
    }
    assert PhaseRun(c, MainPhase(c, timeout), responses, main, stop);
  }

  /** What a run of the protocol is: the main phase decides the outcome, and only its expiry is followed by a
      cancellation, whatever comes after which the run has timed out. */
  ghost predicate Run(c: Clock, responses: nat -> Response, timeout: real, cancelOnTimeout: bool, grace: real,
                      outcome: Result<Response, PollError>, main: seq<Action>, after: seq<Action>)
  {
    && main != []
    && (outcome.Ok? ==> after == [] && PhaseRun(c, MainPhase(c, timeout), responses, main, Arrived(outcome.value)))
    && (outcome.Err? && outcome.error != TimedOut ==>
          && after == [] && PhaseRun(c, MainPhase(c, timeout), responses, main, RequestFailed(main[|main| - 1].response))
          && !main[|main| - 1].response.Payload? && outcome.error == ErrorOf(main[|main| - 1].response))
    && (outcome == Err(TimedOut) ==>
          && PhaseRun(c, MainPhase(c, timeout), responses, main, Expired)
          && (after == [] <==> !cancelOnTimeout)
          && (after != [] ==> Cancelled(c, responses, |main|, grace, after)))
  }

  /** One cancellation, and a grace phase unless the cancellation itself failed; however the phase stops. */
  ghost predicate Cancelled(c: Clock, responses: nat -> Response, polls: nat, grace: real, after: seq<Action>)
    requires polls > 0
  {
    && after != [] && after[0] == Cancel(responses(polls), CancelTime(c, polls))
    && if responses(polls).Payload? then
         exists stop :: PhaseRun(c, GracePhase(c, polls, grace), responses, after[1..], stop)
       else after == [after[0]]
  }

  // ----- What every run of the protocol keeps -----

  function Cancels(actions: seq<Action>): nat {
    if actions == [] then 0 else (if actions[0].Cancel? then 1 else 0) + Cancels(actions[1..])
  }

  lemma {:induction false} NoCancels(actions: seq<Action>)
    requires forall i | 0 <= i < |actions| :: actions[i].Poll?
    ensures Cancels(actions) == 0
  {
    if actions != [] {
      NoCancels(actions[1..]);
    }
  }

  lemma {:induction false} CancelsAppend(a: seq<Action>, b: seq<Action>)
    ensures Cancels(a + b) == Cancels(a) + Cancels(b)
  {
    if a == [] {
      assert a + b == b;
    } else {
      CancelsAppend(a[1..], b);
      assert (a + b)[1..] == a[1..] + b;
    }
  }

  /** A cancellation follows the expiry of the main phase, and nothing but polls comes with it. */
  lemma CancelsOf(c: Clock, responses: nat -> Response, timeout: real, cancelOnTimeout: bool, grace: real,
                  outcome: Result<Response, PollError>, main: seq<Action>, after: seq<Action>)
    requires Run(c, responses, timeout, cancelOnTimeout, grace, outcome, main, after)
    ensures main != [] && forall i | 0 <= i < |main| :: main[i].Poll?
    ensures after != [] <==> outcome == Err(TimedOut) && cancelOnTimeout
    ensures after != [] ==> after[0] == Cancel(responses(|main|), CancelTime(c, |main|))
                            && Late(c, MainPhase(c, timeout), |main| - 1)
    ensures forall i | 0 < i < |after| :: after[i].Poll?
  {
    hide TimeAt, Terminal, Late, CancelTime, PollTime;
    if |after| > 1 {
      forall i | 0 < i < |after| ensures after[i].Poll? {
        assert after[i] == after[1..][i - 1];
      }
    }
  }

  /** The cancellation is sent after the reading that found the deadline passed. */
  lemma CancelledLate(c: Clock, timeout: real, polls: nat)
    requires c.Valid() && polls > 0 && Late(c, MainPhase(c, timeout), polls - 1)
    ensures CancelTime(c, polls) >= c.start + timeout
  {
    SleepsCost(c, OpsAtDeadline(polls), polls - 1, 1, 0);
  }

  lemma OneCancel(main: seq<Action>, after: seq<Action>)
    requires forall i | 0 <= i < |main| :: main[i].Poll?
    requires forall i | 0 < i < |after| :: after[i].Poll?
    requires after != [] ==> after[0].Cancel?
    ensures Cancels(main + after) == if after == [] then 0 else 1
  {
    NoCancels(main);
    CancelsAppend(main, after);
    if after != [] {
      NoCancels(after[1..]);
    }
  }

  /** At most one cancellation is sent, after the deadline, and a run that was cancelled never returns a payload. */
  lemma AtMostOneCancel(c: Clock, responses: nat -> Response, timeout: real, cancelOnTimeout: bool, grace: real,
                        outcome: Result<Response, PollError>, main: seq<Action>, after: seq<Action>)
    requires c.Valid() && Run(c, responses, timeout, cancelOnTimeout, grace, outcome, main, after)
    ensures Cancels(main + after) == if outcome == Err(TimedOut) && cancelOnTimeout then 1 else 0
    ensures forall i | 0 <= i < |main + after| && (main + after)[i].Cancel? ::
              i == |main| && (main + after)[i].at >= c.start + timeout && outcome == Err(TimedOut)
    ensures outcome.Ok? ==> Terminal(outcome.value) && after == []
  {
    hide Terminal, TimeAt, Late, CancelTime, Waits, PollTime;
    assert outcome.Ok? ==> Terminal(outcome.value) && after == [];
    hide *;
    CancelsOf(c, responses, timeout, cancelOnTimeout, grace, outcome, main, after);
    OneCancel(main, after);
    if after != [] {
      CancelledLate(c, timeout, |main|);
    }
  }

  /** Response `n` of the phase is the first terminal one, and no reading before it was late. */
  ghost predicate ArrivesAt(c: Clock, p: Phase, responses: nat -> Response, n: nat) {
    Terminal(responses(p.first + n)) && forall i: nat | i < n :: Waits(c, p, responses, i)
  }

  lemma WaitingIsNotTerminal(c: Clock, p: Phase, responses: nat -> Response, i: nat)
    requires Waits(c, p, responses, i)
    ensures responses(p.first + i).Payload? && !Terminal(responses(p.first + i)) && !Late(c, p, i)
  {
    hide Terminal, Late;
  }

  /** The last poll of a phase, and what it stopped for. */
  lemma PhaseEnds(c: Clock, p: Phase, responses: nat -> Response, polls: seq<Action>, stop: Stop) returns (last: nat)
    requires PhaseRun(c, p, responses, polls, stop)
    ensures |polls| == last + 1 && forall i: nat | i < last :: Waits(c, p, responses, i)
    ensures stop.Arrived? ==> stop.payload == responses(p.first + last)
    ensures stop.RequestFailed? ==> !responses(p.first + last).Payload?
    ensures stop.Expired? ==> !Terminal(responses(p.first + last)) && Late(c, p, last)
  {
    hide Terminal, Late, PollTime, Waits;
    last := |polls| - 1;
    assert polls[last] == Poll(responses(p.first + last), PollTime(c, p, last));
  }

  lemma PhaseArrives(c: Clock, p: Phase, responses: nat -> Response, polls: seq<Action>, stop: Stop, n: nat)
    requires PhaseRun(c, p, responses, polls, stop) && ArrivesAt(c, p, responses, n)
    ensures |polls| == n + 1 && stop == Arrived(responses(p.first + n))
  {
    assert Terminal(responses(p.first + n)) && forall i: nat | i < n :: Waits(c, p, responses, i);
    assert responses(p.first + n).Payload?;
    hide *;
    var last := PhaseEnds(c, p, responses, polls, stop);
    if n < last {
      WaitingIsNotTerminal(c, p, responses, n);
    } else if last < n {
      LastDecides(c, p, responses, polls, stop);
    }
  }

  lemma LastDecides(c: Clock, p: Phase, responses: nat -> Response, polls: seq<Action>, stop: Stop)
    requires PhaseRun(c, p, responses, polls, stop)
    ensures polls != [] && !Waits(c, p, responses, |polls| - 1)
  {
    hide Terminal, Late, PollTime;
    var last: nat := |polls| - 1;
    assert polls[last] == Poll(responses(p.first + last), PollTime(c, p, last));
  }

  lemma ArrivedMeans(c: Clock, p: Phase, responses: nat -> Response, polls: seq<Action>, payload: Response)
    requires PhaseRun(c, p, responses, polls, Arrived(payload))
    ensures ArrivesAt(c, p, responses, |polls| - 1)
  {
    hide Terminal, Waits, PollTime;
    var last: nat := |polls| - 1;
    assert polls[last] == Poll(responses(p.first + last), PollTime(c, p, last));
  }

  /** The protocol returns a payload exactly when one arrives in time, and then returns that one. */
  lemma ReturnsIffArrives(c: Clock, responses: nat -> Response, timeout: real, cancelOnTimeout: bool, grace: real,
                          outcome: Result<Response, PollError>, main: seq<Action>, after: seq<Action>)
    requires Run(c, responses, timeout, cancelOnTimeout, grace, outcome, main, after)
    ensures outcome.Ok? <==> exists n: nat :: ArrivesAt(c, MainPhase(c, timeout), responses, n)
    ensures forall n: nat | ArrivesAt(c, MainPhase(c, timeout), responses, n) ::
              outcome == Ok(responses(n)) && |main| == n + 1
  {
    hide PhaseRun, ArrivesAt, Terminal;
    var p := MainPhase(c, timeout);
    if outcome.Ok? {
      ArrivedMeans(c, p, responses, main, outcome.value);
    }
    forall n: nat | ArrivesAt(c, p, responses, n) ensures outcome == Ok(responses(n)) && |main| == n + 1 {
      var stop := if outcome.Ok? then Arrived(outcome.value)
                  else if outcome.error == TimedOut then Expired else RequestFailed(main[|main| - 1].response);
      PhaseArrives(c, p, responses, main, stop, n);
    }
  }

  // ----- What the outcome tells, in the service's own terms -----

  /** The last poll of the main phase decides the outcome: each of the seven statuses ends the wait and no other
      does, and a request that fails names its error. */
  lemma OutcomeIs(c: Clock, responses: nat -> Response, timeout: real, cancelOnTimeout: bool, grace: real,
                  outcome: Result<Response, PollError>, main: seq<Action>, after: seq<Action>) returns (last: Response)
    requires Run(c, responses, timeout, cancelOnTimeout, grace, outcome, main, after)
    ensures main != [] && last == main[|main| - 1].response == responses(|main| - 1)
    ensures outcome == Ok(last)
            <==> last.Payload? && (last.status == "completed" || last.status == "failed" || last.status == "budget_exhausted"
                                   || last.status == "cancelled" || last.status == "paused"
                                   || last.status == "needs_user_input" || last.status == "interrupted")
    ensures outcome == Ok(last) || outcome.Err?
    ensures outcome == Err(HttpError) <==> last == HttpFailure
    ensures outcome == Err(ValueError) <==> last == NotAnObject
  {
    hide TimeAt, PollTime, Waits, Late, Cancelled;
    last := main[|main| - 1].response;
  }

  /** The requests take the responses from number `first` on, one after the other. */
  ghost predicate Answered(actions: seq<Action>, responses: nat -> Response, first: nat) {
    forall i: nat | i < |actions| :: actions[i].response == responses(first + i)
  }

  /** Each request comes at least the interval after the one before it. */
  ghost predicate Spaced(actions: seq<Action>, interval: real) {
    forall i, j | 0 <= i < j < |actions| && j == i + 1 :: actions[j].at >= actions[i].at + interval
  }

  lemma PhaseInOrder(c: Clock, p: Phase, responses: nat -> Response, polls: seq<Action>, stop: Stop)
    requires c.Valid() && PhaseRun(c, p, responses, polls, stop)
    ensures Answered(polls, responses, p.first) && Spaced(polls, c.interval)
  {
    assert forall i: nat | i < |polls| :: polls[i] == Poll(responses(p.first + i), PollTime(c, p, i));
    assert c.Valid();
    hide *;
    forall i, j | 0 <= i < j < |polls| && j == i + 1 ensures polls[j].at >= polls[i].at + c.interval {
      NextPoll(c, p, i);
    }
    PollsAre(c, p, responses, polls);
  }

  lemma NextPoll(c: Clock, p: Phase, i: nat)
    requires c.Valid()
    ensures PollTime(c, p, i + 1) >= PollTime(c, p, i) + c.interval
  {
    hide TimeAt;
    SleepsCost(c, p.ops + 3 * i + 1, p.sleeps + i, 3, 1);
    assert Slept(1, c.interval) == c.interval;
    assert PollTime(c, p, i + 1) == TimeAt(c, p.ops + 3 * i + 1 + 3, p.sleeps + i + 1);
  }

  lemma PollsAre(c: Clock, p: Phase, responses: nat -> Response, polls: seq<Action>)
    requires forall i: nat | i < |polls| :: polls[i] == Poll(responses(p.first + i), PollTime(c, p, i))
    requires forall i, j | 0 <= i < j < |polls| && j == i + 1 :: polls[j].at >= polls[i].at + c.interval
    ensures Answered(polls, responses, p.first) && Spaced(polls, c.interval)
  {
    hide PollTime;
  }

  /** All requests of a run, the cancellation among them, take the responses one after the other; the polls of
      either phase are at least the interval apart. */
  lemma RequestsInOrder(c: Clock, responses: nat -> Response, timeout: real, cancelOnTimeout: bool, grace: real,
                        outcome: Result<Response, PollError>, main: seq<Action>, after: seq<Action>)
    requires c.Valid() && Run(c, responses, timeout, cancelOnTimeout, grace, outcome, main, after)
    ensures Answered(main + after, responses, 0)
    ensures Spaced(main, c.interval) && (after != [] ==> Spaced(after[1..], c.interval))
  {
    hide *;
    var stop := RunStops(c, responses, timeout, cancelOnTimeout, grace, outcome, main, after);
    PhaseInOrder(c, MainPhase(c, timeout), responses, main, stop);
    if after != [] {
      GraceInOrder(c, responses, |main|, grace, after);
    }
    AnsweredAppend(main, after, responses);
  }

  lemma RunStops(c: Clock, responses: nat -> Response, timeout: real, cancelOnTimeout: bool, grace: real,
                 outcome: Result<Response, PollError>, main: seq<Action>, after: seq<Action>) returns (stop: Stop)
    requires Run(c, responses, timeout, cancelOnTimeout, grace, outcome, main, after)
    ensures main != [] && PhaseRun(c, MainPhase(c, timeout), responses, main, stop)
    ensures after != [] ==> Cancelled(c, responses, |main|, grace, after)
    ensures MainPhase(c, timeout).first == 0
  {
    hide PhaseRun, Cancelled;
    stop := if outcome.Ok? then Arrived(outcome.value)
            else if outcome.error == TimedOut then Expired else RequestFailed(main[|main| - 1].response);
  }

  lemma AnsweredAppend(a: seq<Action>, b: seq<Action>, responses: nat -> Response)
    requires Answered(a, responses, 0) && (b != [] ==> Answered(b, responses, |a|))
    ensures Answered(a + b, responses, 0)
  {
    forall i: nat | i < |a + b| ensures (a + b)[i].response == responses(0 + i) {
      if i < |a| {
        assert a[i].response == responses(0 + i);
      } else {
        assert b[i - |a|].response == responses(|a| + (i - |a|));
      }
    }
  }

  lemma GraceInOrder(c: Clock, responses: nat -> Response, polls: nat, grace: real, after: seq<Action>)
    requires c.Valid() && polls > 0 && Cancelled(c, responses, polls, grace, after)
    ensures Answered(after, responses, polls) && after != [] && Spaced(after[1..], c.interval)
  {
    hide PhaseRun, TimeAt, Answered, Spaced;
    if responses(polls).Payload? {
      var p := GracePhase(c, polls, grace);
      var stop :| PhaseRun(c, p, responses, after[1..], stop);
      PhaseInOrder(c, p, responses, after[1..], stop);
      AnsweredOneMore(after, responses, polls);
    } else {
      OneAnswered(after, responses, polls, c.interval);
    }
  }

  lemma AnsweredOneMore(actions: seq<Action>, responses: nat -> Response, first: nat)
    requires actions != [] && actions[0].response == responses(first) && Answered(actions[1..], responses, first + 1)
    ensures Answered(actions, responses, first)
  {
    forall i: nat | i < |actions| ensures actions[i].response == responses(first + i) {
      if i > 0 {
        assert actions[1..][i - 1].response == responses(first + 1 + (i - 1));
      }
    }
  }

  lemma OneAnswered(actions: seq<Action>, responses: nat -> Response, first: nat, interval: real)
    requires |actions| == 1 && actions[0].response == responses(first)
    ensures Answered(actions, responses, first) && Spaced(actions[1..], interval)
  {
  }

  /** A run times out only at a reading, taken after its last poll, of at least the timeout past the start; and the
      grace period, unless a request in it fails or finds the run over, lasts at least as long as asked for from the
      reading after the cancellation on. */
  lemma TimesOutLate(c: Clock, responses: nat -> Response, timeout: real, cancelOnTimeout: bool, grace: real,
                     main: seq<Action>, after: seq<Action>)
    requires Run(c, responses, timeout, cancelOnTimeout, grace, Err(TimedOut), main, after)
    ensures main != [] && TimeAt(c, 3 * |main| - 1, |main| - 1) >= c.start + timeout
    ensures |after| > 1 && Pending(after[|after| - 1].response) ==>
              TimeAt(c, 3 * |main| + 3 * |after| - 3, |main| + |after| - 3)
              >= TimeAt(c, 3 * |main| + 1, |main| - 1) + grace
  {
    hide TimeAt, PollTime, Waits, Terminal;
    if |after| > 1 && Pending(after[|after| - 1].response) {
      var p := GracePhase(c, |main|, grace);
      var stop :| PhaseRun(c, p, responses, after[1..], stop);
      assert after[1..][|after[1..]| - 1] == after[|after| - 1];
      assert stop == Expired;
      assert Late(c, p, |after| - 2);
      assert p.ops + 3 * (|after| - 2) + 2 == 3 * |main| + 3 * |after| - 3;
    }
  }

  /** The bound on the polls of a phase is the least number whose sleeps cover it. */
  lemma MaxPollsCover(span: real, interval: real)
    requires interval > 0.0
    ensures span <= 0.0 ==> MaxPolls(span, interval) == 1
    ensures span > 0.0 ==> MaxPolls(span, interval) >= 2
    ensures span > 0.0 ==> Slept(MaxPolls(span, interval) - 2, interval) < span <= Slept(MaxPolls(span, interval) - 1, interval)
  {
    var q, n := span / interval, CeilDiv(span, interval);
    DivTimes(span, interval);
    assert n as real - 1.0 < q <= n as real;
    hide Slept, CeilDiv;
    CeilCovers(q, interval, span, n);
  }

  lemma CeilCovers(q: real, interval: real, span: real, n: int)
    requires interval > 0.0 && q * interval == span && n as real - 1.0 < q <= n as real
    ensures span > 0.0 ==> n >= 1 && Slept(n - 1, interval) < span <= Slept(n, interval)
    ensures span <= 0.0 ==> n <= 0
  {
    if q > 0.0 {
      MulPositive(q, interval);
      MulNonNegative(n as real - q, interval);
      assert (n as real - q) * interval == n as real * interval - span;
      var rest := PositiveProduct(q - (n - 1) as real, interval);
      assert rest == span - (n - 1) as real * interval;
    } else {
      MulNonNegative(-q, interval);
    }
  }
}
