/** Three-valued quality gates, the trials they score, and the rates summed over a benchmark. */
module BenchmarkScoring {
  import opened Counting
  import opened Grouping
  import opened Ordering
  import opened Prelude
  import opened Rounding
  import RealArithmetic
  import Wilson

  /** A gate that may not have been decided: `bool | None`. */
  type Verdict = Option<bool>

  /** Three-valued conjunction: false wins, and true needs both. */
  function And(a: Verdict, b: Verdict): Verdict {
    if a == Some(false) || b == Some(false) then Some(false)
    else if a == Some(true) && b == Some(true) then Some(true)
    else None
  }

  datatype Quality = VerifiedPass | VerifiedFail | Unverified

  function QualityFrom(v: Verdict): Quality {
    match v
    case Some(true) => VerifiedPass
    case Some(false) => VerifiedFail
    case None => Unverified
  }

  datatype ClaimReport = ClaimReport(citationGate: bool, semanticGate: Verdict, fulfillmentRequired: bool,
                                     fulfillmentGate: Verdict)
  {
    /** The fulfillment gate, which counts only when it is required. */
    function Fulfillment(): Verdict {
      if fulfillmentRequired then fulfillmentGate else Some(true)
    }

    /** Everything that has to hold for verified quality. */
    function Overall(acceptance: Verdict): Verdict {
      And(And(semanticGate, acceptance), Fulfillment())
    }
  }

  datatype EvaluationResult = EvaluationResult(passed: bool, failureCategories: seq<string>)

  datatype Gate = Gate(processPassed: bool, quality: Quality, failureCategories: seq<string>, passed: bool)

  /** The claim failures a report lists, in order. */
  function ClaimFailures(claim: ClaimReport, acceptance: Verdict): seq<string> {
    (if !claim.citationGate then ["deepresearch.claim_citation_gate"] else [])
    + (if claim.semanticGate == Some(false) then ["deepresearch.claim_semantic_gate"] else [])
    + (if acceptance == Some(false) then ["deepresearch.task_acceptance_contract"] else [])
    + (if claim.Fulfillment() == Some(false) then ["deepresearch.task_fulfillment_gate"] else [])
  }

  function GateFor(status: string, evaluation: EvaluationResult, claim: ClaimReport, acceptance: Verdict): Gate {
    var processPassed := status == "completed" && evaluation.passed;
    var overall := claim.Overall(acceptance);
    Gate(processPassed, QualityFrom(overall),
         Distinct(evaluation.failureCategories + ClaimFailures(claim, acceptance)),
         processPassed && claim.citationGate && overall != Some(false))
  }

  /** `_quality_gate_outcome`: its case analysis is the three-valued conjunction of the gates that count. */
  method QualityGateOutcome(status: string, evaluation: EvaluationResult, claim: ClaimReport, acceptance: Verdict)
    returns (gate: Gate)
    ensures gate == GateFor(status, evaluation, claim, acceptance)
  {
    var processPassed := status == "completed" && evaluation.passed;
    var fulfilled := !claim.fulfillmentRequired || claim.fulfillmentGate == Some(true);
    var quality := Unverified;
    if claim.semanticGate == Some(true) && acceptance == Some(true) && fulfilled {
      quality := VerifiedPass;
    } else if claim.semanticGate == Some(false) || acceptance == Some(false)
              || (claim.fulfillmentRequired && claim.fulfillmentGate == Some(false)) {
      quality := VerifiedFail;
    }
    assert quality == QualityFrom(claim.Overall(acceptance));
    var failures := ListClaimFailures(claim, acceptance);
    var passed := processPassed && claim.citationGate && claim.semanticGate != Some(false) && acceptance != Some(false)
                  && (!claim.fulfillmentRequired || claim.fulfillmentGate != Some(false));
    hide ClaimFailures, Distinct;
    gate := Gate(processPassed, quality, Distinct(evaluation.failureCategories + failures), passed);
  }

  method ListClaimFailures(claim: ClaimReport, acceptance: Verdict) returns (failures: seq<string>)
    ensures failures == ClaimFailures(claim, acceptance)
  {
    failures := if !claim.citationGate then ["deepresearch.claim_citation_gate"] else [];
    failures := failures + if claim.semanticGate == Some(false) then ["deepresearch.claim_semantic_gate"] else [];
    failures := failures + if acceptance == Some(false) then ["deepresearch.task_acceptance_contract"] else [];
    failures := failures + if claim.fulfillmentRequired && claim.fulfillmentGate == Some(false)
                           then ["deepresearch.task_fulfillment_gate"] else [];
  }

  /** A gate passes exactly when the process did and no claim failure is listed; it then was not refuted. */
  lemma GatePassesIff(status: string, evaluation: EvaluationResult, claim: ClaimReport, acceptance: Verdict)
    ensures var g := GateFor(status, evaluation, claim, acceptance);
            && (g.passed <==> g.processPassed && ClaimFailures(claim, acceptance) == [])
            && (g.passed ==> g.quality != VerifiedFail)
            && (g.quality == VerifiedFail ==> ClaimFailures(claim, acceptance) != [])
  {
    var a := if !claim.citationGate then ["deepresearch.claim_citation_gate"] else [];
    var b := if claim.semanticGate == Some(false) then ["deepresearch.claim_semantic_gate"] else [];
    var c := if acceptance == Some(false) then ["deepresearch.task_acceptance_contract"] else [];
    var d := if claim.Fulfillment() == Some(false) then ["deepresearch.task_fulfillment_gate"] else [];
    assert |ClaimFailures(claim, acceptance)| == |a| + |b| + |c| + |d|;
  }

  /** What each quality means, gate by gate. */
  lemma QualityIs(status: string, evaluation: EvaluationResult, claim: ClaimReport, acceptance: Verdict)
    ensures var quality := GateFor(status, evaluation, claim, acceptance).quality;
            var held := claim.semanticGate == Some(true) && acceptance == Some(true)
                        && (!claim.fulfillmentRequired || claim.fulfillmentGate == Some(true));
            var refuted := claim.semanticGate == Some(false) || acceptance == Some(false)
                           || (claim.fulfillmentRequired && claim.fulfillmentGate == Some(false));
            && (quality == VerifiedPass <==> held)
            && (quality == VerifiedFail <==> refuted)
            && (quality == Unverified <==> !held && !refuted)
  {
    hide Distinct, ClaimFailures;
  }

  /** Which failures a gate lists: the evaluation's, and each gate of the claim report that failed. */
  lemma GateFailures(status: string, evaluation: EvaluationResult, claim: ClaimReport, acceptance: Verdict, id: string)
    ensures id in GateFor(status, evaluation, claim, acceptance).failureCategories <==>
              || id in evaluation.failureCategories
              || (id == "deepresearch.claim_citation_gate" && !claim.citationGate)
              || (id == "deepresearch.claim_semantic_gate" && claim.semanticGate == Some(false))
              || (id == "deepresearch.task_acceptance_contract" && acceptance == Some(false))
              || (id == "deepresearch.task_fulfillment_gate" && claim.fulfillmentRequired && claim.fulfillmentGate == Some(false))
  {
    var all := evaluation.failureCategories + ClaimFailures(claim, acceptance);
    assert id in all <==> id in evaluation.failureCategories || id in ClaimFailures(claim, acceptance);
    assert GateFor(status, evaluation, claim, acceptance).failureCategories == Distinct(all);
  }

  // ----- Trials -----

  datatype Expected = ExpectCompleted | ExpectClarification

  /** What running one trial delivers. */
  datatype Observation =
    | Scored(status: string, evaluation: EvaluationResult, claim: ClaimReport, acceptance: Verdict,
             toolCalls: nat, evidenceCount: nat)
    | CapturedFailure(status: string, evaluation: EvaluationResult)
    | RunnerError

  datatype Trial = Trial(taskId: string, trial: nat, expected: Expected, runStatus: string, completed: bool, passed: bool,
                         quality: Option<Quality>, failureCategories: seq<string>)

  function ClarificationFailures(status: string, toolCalls: nat, evidenceCount: nat): seq<string> {
    (if status != "needs_user_input" then ["deepresearch.expected_needs_user_input"] else [])
    + (if toolCalls > 0 then ["deepresearch.unexpected_tool_call"] else [])
    + (if evidenceCount > 0 then ["deepresearch.unexpected_evidence"] else [])
  }

  function RunFailed(status: string): seq<string> {
    if status == "failed" || status == "cancelled" then ["benchmark.target_run_failed"] else []
  }

  function BuildTrial(taskId: string, trial: nat, expected: Expected, o: Observation): (t: Trial)
    ensures t.taskId == taskId && t.trial == trial && t.expected == expected
  {
    match o
    case Scored(status, evaluation, claim, acceptance, toolCalls, evidenceCount) =>
      if expected.ExpectCompleted? then
        var g := GateFor(status, evaluation, claim, acceptance);
        Trial(taskId, trial, expected, status, status == "completed", g.passed, Some(g.quality),
              Distinct(g.failureCategories + RunFailed(status)))
      else
        var failures := ClarificationFailures(status, toolCalls, evidenceCount);
        Trial(taskId, trial, expected, status, status == "needs_user_input", failures == [], None,
              Distinct(failures + RunFailed(status)))
    case CapturedFailure(status, evaluation) =>
      Trial(taskId, trial, expected, status, false, false, Some(Unverified),
            Distinct(["benchmark.execution_error"] + evaluation.failureCategories))
    case RunnerError =>
      Trial(taskId, trial, expected, "runner_error", false, false, None, ["benchmark.execution_error"])
  }

  predicate IsPassed(t: Trial) {
    t.passed
  }

  predicate IsCompleted(t: Trial) {
    t.completed
  }

  predicate PassedVerified(t: Trial) {
    t.passed && (t.expected == ExpectClarification || t.quality == Some(VerifiedPass))
  }

  predicate PassedUnverified(t: Trial) {
    t.passed && t.expected == ExpectCompleted && t.quality == Some(Unverified)
  }

  /** A passed trial completed, was not refuted, and counts as exactly one of verified and unverified. */
  lemma BuiltTrialSound(taskId: string, trial: nat, expected: Expected, o: Observation)
    ensures var t := BuildTrial(taskId, trial, expected, o);
            t.passed ==> t.completed && t.quality != Some(VerifiedFail) && PassedVerified(t) != PassedUnverified(t)
  {
    if o.Scored? && expected.ExpectClarification? {
      var status, calls, evidence := o.status, o.toolCalls, o.evidenceCount;
      var a := if status != "needs_user_input" then ["deepresearch.expected_needs_user_input"] else [];
      assert |ClarificationFailures(status, calls, evidence)| >= |a|;
    }
  }

  /** An observation that passes the trial, and one that passes it with everything verified. */
  predicate Passes(expected: Expected, o: Observation) {
    && o.Scored?
    && if expected.ExpectClarification? then
         o.status == "needs_user_input" && o.toolCalls == 0 && o.evidenceCount == 0
       else
         && o.status == "completed" && o.evaluation.passed && o.claim.citationGate
         && o.claim.semanticGate != Some(false) && o.acceptance != Some(false)
         && !(o.claim.fulfillmentRequired && o.claim.fulfillmentGate == Some(false))
  }

  predicate PassesVerified(expected: Expected, o: Observation) {
    && Passes(expected, o)
    && (expected.ExpectCompleted? ==>
          && o.claim.semanticGate == Some(true) && o.acceptance == Some(true)
          && (o.claim.fulfillmentRequired ==> o.claim.fulfillmentGate == Some(true)))
  }

  predicate Completes(expected: Expected, o: Observation) {
    o.Scored? && o.status == if expected.ExpectClarification? then "needs_user_input" else "completed"
  }

  /** The outcome of a trial, read off what running it delivered. */
  lemma TrialOutcome(taskId: string, trial: nat, expected: Expected, o: Observation)
    ensures var t := BuildTrial(taskId, trial, expected, o);
            && (t.passed <==> Passes(expected, o))
            && (PassedVerified(t) <==> PassesVerified(expected, o))
            && (PassedUnverified(t) <==> Passes(expected, o) && !PassesVerified(expected, o))
            && (t.completed <==> Completes(expected, o))
  {
    if o.Scored? {
      if expected.ExpectCompleted? {
        GatePassesIff(o.status, o.evaluation, o.claim, o.acceptance);
        QualityIs(o.status, o.evaluation, o.claim, o.acceptance);
        assert GateFor(o.status, o.evaluation, o.claim, o.acceptance).passed <==> Passes(expected, o);
        hide GateFor, Distinct;
      } else {
        ClarificationClean(o.status, o.toolCalls, o.evidenceCount);
        hide ClarificationFailures, Distinct;
      }
    }
  }

  lemma ClarificationClean(status: string, toolCalls: nat, evidenceCount: nat)
    ensures ClarificationFailures(status, toolCalls, evidenceCount) == []
            <==> status == "needs_user_input" && toolCalls == 0 && evidenceCount == 0
  {
    var a := if status != "needs_user_input" then ["deepresearch.expected_needs_user_input"] else [];
    var b := if toolCalls > 0 then ["deepresearch.unexpected_tool_call"] else [];
    var c := if evidenceCount > 0 then ["deepresearch.unexpected_evidence"] else [];
    assert |ClarificationFailures(status, toolCalls, evidenceCount)| == |a| + |b| + |c|;
  }

  /** Which failures a trial lists. */
  lemma TrialFailures(taskId: string, trial: nat, expected: Expected, o: Observation, id: string)
    ensures id in BuildTrial(taskId, trial, expected, o).failureCategories <==>
              if o.Scored? then
                || (id == "benchmark.target_run_failed" && (o.status == "failed" || o.status == "cancelled"))
                || if expected.ExpectCompleted? then
                     id in GateFor(o.status, o.evaluation, o.claim, o.acceptance).failureCategories
                   else
                     || (id == "deepresearch.expected_needs_user_input" && o.status != "needs_user_input")
                     || (id == "deepresearch.unexpected_tool_call" && o.toolCalls > 0)
                     || (id == "deepresearch.unexpected_evidence" && o.evidenceCount > 0)
              else
                id == "benchmark.execution_error" || (o.CapturedFailure? && id in o.evaluation.failureCategories)
  {
    hide GateFor;
    if o.Scored? {
      var own := if expected.ExpectCompleted? then GateFor(o.status, o.evaluation, o.claim, o.acceptance).failureCategories
                 else ClarificationFailures(o.status, o.toolCalls, o.evidenceCount);
      assert BuildTrial(taskId, trial, expected, o).failureCategories == Distinct(own + RunFailed(o.status));
      assert id in own + RunFailed(o.status) <==> id in own || id in RunFailed(o.status);
    } else if o.CapturedFailure? {
      var all := ["benchmark.execution_error"] + o.evaluation.failureCategories;
      assert BuildTrial(taskId, trial, expected, o).failureCategories == Distinct(all);
      assert id in all <==> id == "benchmark.execution_error" || id in o.evaluation.failureCategories;
    }
  }

  // ----- A benchmark run -----

  datatype Task = Task(taskId: string, expected: Expected)

  function TrialAt(task: Task, observe: (string, nat) -> Observation, i: nat): Trial {
    BuildTrial(task.taskId, i + 1, task.expected, observe(task.taskId, i + 1))
  }

  function TaskTrials(task: Task, k: nat, observe: (string, nat) -> Observation): (trials: seq<Trial>)
    ensures |trials| == k
  {
    seq(k, i requires 0 <= i < k => TrialAt(task, observe, i))
  }

  /** Every task tried `k` times, whatever each try delivers. */
  function AllTrials(tasks: seq<Task>, k: nat, observe: (string, nat) -> Observation): seq<Trial> {
    if tasks == [] then [] else TaskTrials(tasks[0], k, observe) + AllTrials(tasks[1..], k, observe)
  }

  ghost predicate UniqueIds(tasks: seq<Task>) {
    forall i, j | 0 <= i < j < |tasks| :: tasks[i].taskId != tasks[j].taskId
  }

  function OfTask(trials: seq<Trial>, taskId: string): seq<Trial> {
    Tagged(trials, (t: Trial) => t.taskId, taskId)
  }

  predicate TrialLe(a: Trial, b: Trial) {
    a.trial <= b.trial
  }

  datatype TaskSummary = TaskSummary(taskId: string, trials: nat, completed: nat, passed: nat, passRate: real,
                                     passAt1: bool, passPowerK: bool)

  function Rate(part: nat, whole: nat): real
    requires whole > 0
  {
    Round4(part as real / whole as real)
  }

  function SummarizeTask(taskId: string, trials: seq<Trial>): TaskSummary
    requires OfTask(trials, taskId) != []
  {
    var selected := SortBy(OfTask(trials, taskId), TrialLe);
    var passed := Count(selected, IsPassed);
    TaskSummary(taskId, |selected|, Count(selected, IsCompleted), passed, Rate(passed, |selected|),
                selected[0].passed, passed == |selected|)
  }

  predicate AtFirst(s: TaskSummary) {
    s.passAt1
  }

  predicate EveryTime(s: TaskSummary) {
    s.passPowerK
  }

  datatype Metrics = Metrics(total: nat, completed: nat, passed: nat, verified: nat, unverified: nat, passRate: real,
                             lower: real, upper: real, wilson: Result<real, Wilson.WilsonError>,
                             passAt1Rate: real, passPowerKRate: real)

  /** `root` is the square root the Wilson bound takes. */
  function Summarize(trials: seq<Trial>, summaries: seq<TaskSummary>, root: real): Metrics
    requires trials != [] && summaries != []
  {
    var total, passed := |trials|, Count(trials, IsPassed);
    var verified, unverified := Count(trials, PassedVerified), Count(trials, PassedUnverified);
    Metrics(total, Count(trials, IsCompleted), passed, verified, unverified, Rate(passed, total),
            Rate(verified, total), Rate(verified + unverified, total), Wilson.WilsonLowerBound(passed, total, 0.95, root),
            Rate(Count(summaries, AtFirst), |summaries|), Rate(Count(summaries, EveryTime), |summaries|))
  }

  // ----- What holds of every benchmark run -----

  lemma RateMonotone(a: nat, b: nat, whole: nat)
    requires a <= b && whole > 0
    ensures Rate(a, whole) <= Rate(b, whole)
  {
    RealArithmetic.DivWeakOrder(a as real, b as real, whole as real);
    Round4Monotone(a as real / whole as real, b as real / whole as real);
  }

  /** Comparing rates over different totals by cross-multiplication. */
  lemma RateCross(a: nat, n: nat, b: nat, m: nat)
    requires n > 0 && m > 0 && a * m <= b * n
    ensures Rate(a, n) <= Rate(b, m)
  {
    var x, y := a as real / n as real, b as real / m as real;
    assert x * n as real == a as real && y * m as real == b as real;
    assert (x * n as real) * m as real <= (y * m as real) * n as real by {
      assert (a * m) as real == a as real * m as real && (b * n) as real == b as real * n as real;
    }
    if x > y {
      ScaleStrict(y, x, n as real, m as real);
    }
    Round4Monotone(x, y);
  }

  lemma ScaleStrict(y: real, x: real, n: real, m: real)
    requires y < x && n > 0.0 && m > 0.0
    ensures (x * n) * m > (y * m) * n
  {
    var nm := n * m;
    assert nm > 0.0;
    assert (x - y) * nm > 0.0;
    assert (x * n) * m - (y * m) * n == (x - y) * nm;
  }

  /** What `BuiltTrialSound` says, of a whole list. */
  ghost predicate AllSound(trials: seq<Trial>) {
    forall t | t in trials && t.passed :: t.completed && PassedVerified(t) != PassedUnverified(t)
  }

  lemma {:induction false} RunSound(tasks: seq<Task>, k: nat, observe: (string, nat) -> Observation)
    ensures AllSound(AllTrials(tasks, k, observe)) && |AllTrials(tasks, k, observe)| == |tasks| * k
  {
    if tasks != [] {
      hide BuildTrial;
      RunSound(tasks[1..], k, observe);
      var task := tasks[0];
      forall i: nat | i < k
        ensures var t := TrialAt(task, observe, i);
                t.passed ==> t.completed && PassedVerified(t) != PassedUnverified(t)
      {
        BuiltTrialSound(task.taskId, i + 1, task.expected, observe(task.taskId, i + 1));
      }
      assert |tasks| * k == k + |tasks[1..]| * k;
    }
  }

  /** Verified and unverified passes add up to the passes, which are among the completions. */
  lemma {:induction false} PassesSplit(trials: seq<Trial>)
    requires AllSound(trials)
    ensures Count(trials, PassedVerified) + Count(trials, PassedUnverified) == Count(trials, IsPassed)
    ensures Count(trials, IsPassed) <= Count(trials, IsCompleted) <= |trials|
  {
    if trials != [] {
      assert trials[0] in trials && forall t | t in trials[1..] :: t in trials;
      PassesSplit(trials[1..]);
    }
  }

  lemma {:induction false} OfTaskSame(trials: seq<Trial>, taskId: string, other: string)
    requires forall t | t in trials :: t.taskId == other
    ensures OfTask(trials, taskId) == if taskId == other then trials else []
  {
    if trials != [] {
      assert trials[0] in trials && forall t | t in trials[1..] :: t in trials;
      OfTaskSame(trials[1..], taskId, other);
    }
  }

  /** The trials of a run that carry a task's id are the trials of that task. */
  lemma {:induction false} OfTaskIs(tasks: seq<Task>, k: nat, observe: (string, nat) -> Observation, taskId: string)
    requires UniqueIds(tasks)
    ensures (forall t | t in tasks :: t.taskId != taskId) ==> OfTask(AllTrials(tasks, k, observe), taskId) == []
    ensures forall i | 0 <= i < |tasks| && tasks[i].taskId == taskId ::
              OfTask(AllTrials(tasks, k, observe), taskId) == TaskTrials(tasks[i], k, observe)
  {
    if tasks != [] {
      hide BuildTrial, OfTask;
      var own, rest := TaskTrials(tasks[0], k, observe), AllTrials(tasks[1..], k, observe);
      OwnIds(tasks[0], k, observe);
      OfTaskIs(tasks[1..], k, observe, taskId);
      TaggedAppend(own, rest, (t: Trial) => t.taskId, taskId);
      OfTaskIsTagged(own, taskId);
      OfTaskIsTagged(rest, taskId);
      OfTaskIsTagged(own + rest, taskId);
      OfTaskSame(own, taskId, tasks[0].taskId);
      assert tasks[0] in tasks && forall t | t in tasks[1..] :: t in tasks;
      if tasks[0].taskId == taskId {
        assert forall t | t in tasks[1..] :: t.taskId != taskId;
      } else {
        assert forall i | 1 <= i < |tasks| :: tasks[i] == tasks[1..][i - 1];
      }
    }
  }

  lemma OfTaskIsTagged(trials: seq<Trial>, taskId: string)
    ensures OfTask(trials, taskId) == Tagged(trials, (t: Trial) => t.taskId, taskId)
  {
  }

  lemma OwnIds(task: Task, k: nat, observe: (string, nat) -> Observation)
    ensures forall t | t in TaskTrials(task, k, observe) :: t.taskId == task.taskId
  {
    hide BuildTrial;
  }

  /** A task's summary counts its own trials; always passing implies passing the first time. */
  lemma SummaryOf(tasks: seq<Task>, k: nat, observe: (string, nat) -> Observation, i: nat)
    requires UniqueIds(tasks) && k > 0 && i < |tasks|
    ensures var trials := AllTrials(tasks, k, observe);
            && OfTask(trials, tasks[i].taskId) != []
            && var s := SummarizeTask(tasks[i].taskId, trials);
               && s.trials == k && s.passed == Count(TaskTrials(tasks[i], k, observe), IsPassed) <= k
               && (s.passPowerK <==> s.passed == k) && (s.passPowerK ==> s.passAt1)
  {
    hide BuildTrial, SortBy;
    OfTaskIs(tasks, k, observe, tasks[i].taskId);
    var own := TaskTrials(tasks[i], k, observe);
    var selected := SortBy(own, TrialLe);
    CountPermutation(selected, own, IsPassed);
    CountBounds(selected, IsPassed);
    assert selected[0] in selected;
  }

  /** Pass@1 is the outcome of the first trial. */
  lemma PassAtOneIsFirst(tasks: seq<Task>, k: nat, observe: (string, nat) -> Observation, i: nat)
    requires UniqueIds(tasks) && k > 0 && i < |tasks|
    ensures OfTask(AllTrials(tasks, k, observe), tasks[i].taskId) != []
    ensures SummarizeTask(tasks[i].taskId, AllTrials(tasks, k, observe)).passAt1 == TrialAt(tasks[i], observe, 0).passed
  {
    hide BuildTrial, SortBy, AllTrials, OfTask, IsPassed, IsCompleted, Count, Rate;
    OfTaskIs(tasks, k, observe, tasks[i].taskId);
    var own := TaskTrials(tasks[i], k, observe);
    var selected := SortBy(own, TrialLe);
    SortBySorted(own, TrialLe);
    PermutationFacts(selected, own);
    assert own[0] == TrialAt(tasks[i], observe, 0) && own[0] in selected && selected[0] in own;
    var x :| 0 <= x < |selected| && selected[x] == own[0];
    assert x == 0 || TrialLe(selected[0], selected[x]);
    var y :| 0 <= y < |own| && own[y] == selected[0];
    assert own[y].trial == y + 1 && own[0].trial == 1;
  }

  function Summaries(tasks: seq<Task>, trials: seq<Trial>): (summaries: seq<TaskSummary>)
    requires forall t | t in tasks :: OfTask(trials, t.taskId) != []
    ensures |summaries| == |tasks|
  {
    seq(|tasks|, i requires 0 <= i < |tasks| => SummarizeTask(tasks[i].taskId, trials))
  }

  function SumPassed(summaries: seq<TaskSummary>): nat {
    if summaries == [] then 0 else summaries[0].passed + SumPassed(summaries[1..])
  }

  /** Per-task counts that agree with a run, task by task. */
  ghost predicate Agree(summaries: seq<TaskSummary>, tasks: seq<Task>, k: nat, observe: (string, nat) -> Observation) {
    && |summaries| == |tasks|
    && forall i | 0 <= i < |tasks| ::
         && summaries[i].passed == Count(TaskTrials(tasks[i], k, observe), IsPassed) <= k
         && (summaries[i].passPowerK <==> summaries[i].passed == k) && (summaries[i].passPowerK ==> summaries[i].passAt1)
  }

  lemma {:induction false} SummariesAddUp(summaries: seq<TaskSummary>, tasks: seq<Task>, k: nat,
                                          observe: (string, nat) -> Observation)
    requires Agree(summaries, tasks, k, observe)
    ensures SumPassed(summaries) == Count(AllTrials(tasks, k, observe), IsPassed)
  {
    assert |summaries| == |tasks|;
    if tasks != [] {
      hide TaskTrials, Agree, IsPassed;
      AgreeParts(summaries, tasks, k, observe);
      SummariesAddUp(summaries[1..], tasks[1..], k, observe);
      CountAppend(TaskTrials(tasks[0], k, observe), AllTrials(tasks[1..], k, observe), IsPassed);
    }
  }

  lemma {:induction false} AlwaysImpliesFirst(summaries: seq<TaskSummary>, tasks: seq<Task>, k: nat,
                                              observe: (string, nat) -> Observation)
    requires Agree(summaries, tasks, k, observe)
    ensures Count(summaries, EveryTime) <= Count(summaries, AtFirst) <= |summaries|
    ensures SumAlways(summaries, k) <= SumPassed(summaries)
  {
    assert |summaries| == |tasks|;
    assert tasks == [] ==> Count(summaries, EveryTime) == Count(summaries, AtFirst) == SumAlways(summaries, k) == 0;
    if tasks != [] {
      SummaryCons(summaries, k);
      hide *;
      AgreeParts(summaries, tasks, k, observe);
      AlwaysImpliesFirst(summaries[1..], tasks[1..], k, observe);
    }
  }

  lemma SummaryCons(summaries: seq<TaskSummary>, k: nat)
    requires summaries != []
    ensures var first, rest := summaries[0], summaries[1..];
            && Count(summaries, EveryTime) == (if first.passPowerK then 1 else 0) + Count(rest, EveryTime)
            && Count(summaries, AtFirst) == (if first.passAt1 then 1 else 0) + Count(rest, AtFirst)
            && SumPassed(summaries) == first.passed + SumPassed(rest)
            && SumAlways(summaries, k) == (if first.passPowerK then k else 0) + SumAlways(rest, k)
  {
  }

  /** The passes of the tasks that passed all `k` trials. */
  function SumAlways(summaries: seq<TaskSummary>, k: nat): nat {
    if summaries == [] then 0 else (if summaries[0].passPowerK then k else 0) + SumAlways(summaries[1..], k)
  }

  lemma {:induction false} SumAlwaysIs(summaries: seq<TaskSummary>, k: nat)
    ensures SumAlways(summaries, k) == Count(summaries, EveryTime) * k
  {
    if summaries != [] {
      SumAlwaysIs(summaries[1..], k);
      OneMoreTime(Count(summaries[1..], EveryTime), k);
    }
  }

  lemma OneMoreTime(n: nat, k: nat)
    ensures (1 + n) * k == k + n * k
  {
  }

  lemma AgreeParts(summaries: seq<TaskSummary>, tasks: seq<Task>, k: nat, observe: (string, nat) -> Observation)
    requires Agree(summaries, tasks, k, observe) && tasks != []
    ensures |summaries| == |tasks| && Agree(summaries[1..], tasks[1..], k, observe)
    ensures summaries[0].passed == Count(TaskTrials(tasks[0], k, observe), IsPassed) <= k
    ensures (summaries[0].passPowerK <==> summaries[0].passed == k) && (summaries[0].passPowerK ==> summaries[0].passAt1)
  {
    hide TaskTrials;
    assert forall i | 0 <= i < |tasks[1..]| :: summaries[1..][i] == summaries[i + 1] && tasks[1..][i] == tasks[i + 1];
  }

  lemma RunAgrees(tasks: seq<Task>, k: nat, observe: (string, nat) -> Observation)
    requires UniqueIds(tasks) && k > 0
    ensures forall t | t in tasks :: OfTask(AllTrials(tasks, k, observe), t.taskId) != []
    ensures Agree(Summaries(tasks, AllTrials(tasks, k, observe)), tasks, k, observe)
  {
    hide TaskTrials, AllTrials, OfTask, SummarizeTask;
    forall i: nat | i < |tasks|
      ensures OfTask(AllTrials(tasks, k, observe), tasks[i].taskId) != []
    {
      SummaryOf(tasks, k, observe, i);
    }
    forall i: nat | i < |tasks|
      ensures var s := Summaries(tasks, AllTrials(tasks, k, observe))[i];
              && s.passed == Count(TaskTrials(tasks[i], k, observe), IsPassed) <= k
              && (s.passPowerK <==> s.passed == k) && (s.passPowerK ==> s.passAt1)
    {
      SummaryOf(tasks, k, observe, i);
    }
  }

  /** The published rates of every run are ordered as the report explains them. */
  lemma RunRates(tasks: seq<Task>, k: nat, observe: (string, nat) -> Observation, root: real)
    requires tasks != [] && UniqueIds(tasks) && k > 0
    requires var trials := AllTrials(tasks, k, observe);
             0 < |trials| && Wilson.IsRoot(root, Wilson.Proportion(Count(trials, IsPassed), |trials|), |trials|, 1.959963984540054)
    ensures forall t | t in tasks :: OfTask(AllTrials(tasks, k, observe), t.taskId) != []
    ensures var trials := AllTrials(tasks, k, observe);
            var m := Summarize(trials, Summaries(tasks, trials), root);
            && m.total == |tasks| * k && m.verified + m.unverified == m.passed <= m.completed <= m.total
            && SumPassed(Summaries(tasks, trials)) == m.passed
            && 0.0 <= m.lower <= m.passRate && m.passRate == m.upper && m.upper <= 1.0
            && m.passPowerKRate <= m.passAt1Rate <= 1.0 && m.passPowerKRate <= m.passRate
            && m.wilson.Ok? && 0.0 <= m.wilson.value <= m.passRate
  {
    hide *;
    var trials := AllTrials(tasks, k, observe);
    RunSound(tasks, k, observe);
    PassesSplit(trials);
    RunAgrees(tasks, k, observe);
    var summaries := Summaries(tasks, trials);
    SummariesAddUp(summaries, tasks, k, observe);
    AlwaysImpliesFirst(summaries, tasks, k, observe);
    SumAlwaysIs(summaries, k);
    MetricsOrdered(trials, summaries, k, root);
  }

  /** The order of the rates, from the counts alone. */
  lemma MetricsOrdered(trials: seq<Trial>, summaries: seq<TaskSummary>, k: nat, root: real)
    requires trials != [] && summaries != [] && |trials| == |summaries| * k
    requires Count(trials, PassedVerified) + Count(trials, PassedUnverified) == Count(trials, IsPassed)
    requires Count(trials, IsPassed) <= |trials|
    requires Count(summaries, EveryTime) <= Count(summaries, AtFirst) <= |summaries|
    requires Count(summaries, EveryTime) * k <= Count(trials, IsPassed)
    requires Wilson.IsRoot(root, Wilson.Proportion(Count(trials, IsPassed), |trials|), |trials|, 1.959963984540054)
    ensures var m := Summarize(trials, summaries, root);
            && m.total == |trials| && m.passed == Count(trials, IsPassed) && m.completed == Count(trials, IsCompleted)
            && m.verified + m.unverified == m.passed
            && 0.0 <= m.lower <= m.passRate && m.passRate == m.upper && m.upper <= 1.0
            && m.passPowerKRate <= m.passAt1Rate <= 1.0 && m.passPowerKRate <= m.passRate
            && m.wilson.Ok? && 0.0 <= m.wilson.value <= m.passRate
  {
    hide Count, Rate, Wilson.WilsonLowerBound, Wilson.IsRoot, Wilson.Proportion;
    WilsonBelowRate(Count(trials, IsPassed), |trials|, root);
    RatesOrdered(Count(summaries, EveryTime), Count(summaries, AtFirst), |summaries|,
                 Count(trials, PassedVerified), Count(trials, IsPassed), |trials|, k);
  }

  lemma RatesOrdered(always: nat, first: nat, tasks: nat, verified: nat, passed: nat, total: nat, k: nat)
    requires always <= first <= tasks && verified <= passed <= total
    requires tasks > 0 && total > 0 && total == tasks * k && always * k <= passed
    ensures 0.0 <= Rate(verified, total) <= Rate(passed, total) <= 1.0
    ensures Rate(always, tasks) <= Rate(first, tasks) <= 1.0 && Rate(always, tasks) <= Rate(passed, total)
  {
    hide Rate;
    RateWithin(verified, total);
    RateWithin(passed, total);
    RateWithin(first, tasks);
    RateMonotone(verified, passed, total);
    RateMonotone(always, first, tasks);
    Reassociate(always, tasks, k);
    OrderScaled(always * k, passed, tasks);
    RateCross(always, tasks, passed, total);
  }

  lemma WilsonBelowRate(passed: nat, total: nat, root: real)
    requires 0 < total && passed <= total
    requires Wilson.IsRoot(root, Wilson.Proportion(passed, total), total, 1.959963984540054)
    ensures var w := Wilson.WilsonLowerBound(passed, total, 0.95, root);
            w.Ok? && 0.0 <= w.value <= Rate(passed, total)
  {
    assert Wilson.ZScore(0.95) == Some(1.959963984540054);
    hide Wilson.WilsonLowerBound, Wilson.IsRoot, Round4;
    Wilson.ReportedBound(passed, total, 0.95, root);
  }

  lemma Reassociate(a: nat, n: nat, k: nat)
    ensures a * (n * k) == (a * k) * n
  {
  }

  lemma OrderScaled(a: nat, b: nat, n: nat)
    requires a <= b
    ensures a * n <= b * n
  {
  }

  lemma RateWithin(part: nat, whole: nat)
    requires part <= whole && whole > 0
    ensures 0.0 <= Rate(part, whole) <= 1.0
  {
    assert 0.0 <= part as real / whole as real <= 1.0;
    Round4Within(part as real / whole as real, 0, 1);
  }

  // ----- What the published figures are -----

  /** One try of a task: what was expected of it and what it delivered. */
  datatype Try = Try(expected: Expected, delivered: Observation)

  function TaskTries(task: Task, k: nat, observe: (string, nat) -> Observation): (tries: seq<Try>)
    ensures |tries| == k
  {
    seq(k, i requires 0 <= i < k => Try(task.expected, observe(task.taskId, i + 1)))
  }

  /** Every try of a run. */
  function Tries(tasks: seq<Task>, k: nat, observe: (string, nat) -> Observation): seq<Try> {
    if tasks == [] then [] else TaskTries(tasks[0], k, observe) + Tries(tasks[1..], k, observe)
  }

  lemma {:induction false} CountAlike<T, U>(a: seq<T>, p: T -> bool, b: seq<U>, q: U -> bool)
    requires |a| == |b| && forall i | 0 <= i < |a| :: p(a[i]) == q(b[i])
    ensures Count(a, p) == Count(b, q)
  {
    if a != [] {
      assert forall i | 0 <= i < |a[1..]| :: a[1..][i] == a[i + 1] && b[1..][i] == b[i + 1];
      CountAlike(a[1..], p, b[1..], q);
    }
  }

  /** The counts of a run are counts of its tries. */
  lemma {:induction false} RunCounted(tasks: seq<Task>, k: nat, observe: (string, nat) -> Observation)
    ensures var trials, tries := AllTrials(tasks, k, observe), Tries(tasks, k, observe);
            && Count(trials, IsPassed) == Count(tries, (t: Try) => Passes(t.expected, t.delivered))
            && Count(trials, PassedVerified) == Count(tries, (t: Try) => PassesVerified(t.expected, t.delivered))
            && Count(trials, IsCompleted) == Count(tries, (t: Try) => Completes(t.expected, t.delivered))
  {
    hide Passes, PassesVerified, Completes, IsPassed, IsCompleted, PassedVerified;
    if tasks != [] {
      var passes := (t: Try) => Passes(t.expected, t.delivered);
      var verified := (t: Try) => PassesVerified(t.expected, t.delivered);
      var completes := (t: Try) => Completes(t.expected, t.delivered);
      var own, mine := TaskTrials(tasks[0], k, observe), TaskTries(tasks[0], k, observe);
      var trials, tries := AllTrials(tasks[1..], k, observe), Tries(tasks[1..], k, observe);
      hide TaskTrials, TaskTries;
      RunCounted(tasks[1..], k, observe);
      OwnCounted(tasks[0], k, observe);
      CountAppend(own, trials, IsPassed);
      CountAppend(own, trials, PassedVerified);
      CountAppend(own, trials, IsCompleted);
      CountAppend(mine, tries, passes);
      CountAppend(mine, tries, verified);
      CountAppend(mine, tries, completes);
    }
  }

  lemma OwnCounted(task: Task, k: nat, observe: (string, nat) -> Observation)
    ensures var own, mine := TaskTrials(task, k, observe), TaskTries(task, k, observe);
            && Count(own, IsPassed) == Count(mine, (t: Try) => Passes(t.expected, t.delivered))
            && Count(own, PassedVerified) == Count(mine, (t: Try) => PassesVerified(t.expected, t.delivered))
            && Count(own, IsCompleted) == Count(mine, (t: Try) => Completes(t.expected, t.delivered))
  {
    hide BuildTrial, Passes, PassesVerified, Completes, PassedVerified, Count;
    var own, mine := TaskTrials(task, k, observe), TaskTries(task, k, observe);
    forall i: nat | i < k
      ensures own[i].passed == Passes(mine[i].expected, mine[i].delivered)
      ensures PassedVerified(own[i]) == PassesVerified(mine[i].expected, mine[i].delivered)
      ensures own[i].completed == Completes(mine[i].expected, mine[i].delivered)
    {
      TrialOutcome(task.taskId, i + 1, task.expected, observe(task.taskId, i + 1));
    }
    CountAlike(own, IsPassed, mine, (t: Try) => Passes(t.expected, t.delivered));
    CountAlike(own, PassedVerified, mine, (t: Try) => PassesVerified(t.expected, t.delivered));
    CountAlike(own, IsCompleted, mine, (t: Try) => Completes(t.expected, t.delivered));
  }

  predicate FirstPasses(task: Task, observe: (string, nat) -> Observation) {
    Passes(task.expected, observe(task.taskId, 1))
  }

  predicate AlwaysPasses(task: Task, k: nat, observe: (string, nat) -> Observation) {
    forall i | 1 <= i <= k :: Passes(task.expected, observe(task.taskId, i))
  }

  lemma TaskCounted(task: Task, k: nat, observe: (string, nat) -> Observation)
    ensures Count(TaskTrials(task, k, observe), IsPassed)
            == Count(TaskTries(task, k, observe), (t: Try) => Passes(t.expected, t.delivered))
    ensures Count(TaskTrials(task, k, observe), IsCompleted)
            == Count(TaskTries(task, k, observe), (t: Try) => Completes(t.expected, t.delivered))
    ensures Count(TaskTrials(task, k, observe), IsPassed) == k <==> AlwaysPasses(task, k, observe)
  {
    OwnCounted(task, k, observe);
    hide BuildTrial, Passes, Completes, Count;
    var own := TaskTrials(task, k, observe);
    CountBounds(own, IsPassed);
    forall i: nat | i < k ensures own[i] in own && (IsPassed(own[i]) <==> Passes(task.expected, observe(task.taskId, i + 1))) {
      TrialOutcome(task.taskId, i + 1, task.expected, observe(task.taskId, i + 1));
    }
    if AlwaysPasses(task, k, observe) {
      forall t | t in own ensures IsPassed(t) {
        var i :| 0 <= i < k && own[i] == t;
      }
    }
    if forall t | t in own :: IsPassed(t) {
      forall i | 1 <= i <= k ensures Passes(task.expected, observe(task.taskId, i)) {
        assert own[i - 1] in own;
      }
    }
  }

  /** What a task's summary reports, in terms of its tries. */
  lemma SummaryFigures(tasks: seq<Task>, k: nat, observe: (string, nat) -> Observation, i: nat)
    requires UniqueIds(tasks) && k > 0 && i < |tasks|
    ensures OfTask(AllTrials(tasks, k, observe), tasks[i].taskId) != []
    ensures var s := SummarizeTask(tasks[i].taskId, AllTrials(tasks, k, observe));
            var tries := TaskTries(tasks[i], k, observe);
            && s.taskId == tasks[i].taskId && s.trials == k
            && s.completed == Count(tries, (t: Try) => Completes(t.expected, t.delivered))
            && s.passed == Count(tries, (t: Try) => Passes(t.expected, t.delivered))
            && s.passRate == Round4(s.passed as real / k as real)
            && (s.passAt1 <==> FirstPasses(tasks[i], observe)) && (s.passPowerK <==> AlwaysPasses(tasks[i], k, observe))
  {
    SummaryMeans(tasks, k, observe, i);
    hide *;
    PassAtOneIsFirst(tasks, k, observe, i);
    TaskCounted(tasks[i], k, observe);
    FirstTry(tasks[i], observe);
  }

  lemma FirstTry(task: Task, observe: (string, nat) -> Observation)
    ensures TrialAt(task, observe, 0).passed <==> FirstPasses(task, observe)
  {
    hide BuildTrial, Passes;
    TrialOutcome(task.taskId, 1, task.expected, observe(task.taskId, 1));
  }

  lemma SummaryMeans(tasks: seq<Task>, k: nat, observe: (string, nat) -> Observation, i: nat)
    requires UniqueIds(tasks) && k > 0 && i < |tasks|
    ensures OfTask(AllTrials(tasks, k, observe), tasks[i].taskId) != []
    ensures var s := SummarizeTask(tasks[i].taskId, AllTrials(tasks, k, observe));
            var own := TaskTrials(tasks[i], k, observe);
            && s.taskId == tasks[i].taskId && s.trials == k && s.passed == Count(own, IsPassed)
            && s.completed == Count(own, IsCompleted) && s.passRate == Round4(s.passed as real / k as real)
            && (s.passPowerK <==> s.passed == k)
  {
    hide BuildTrial, SortBy, Round4, AllTrials, OfTask, TaskTrials, Count;
    OfTaskIs(tasks, k, observe, tasks[i].taskId);
    var own := TaskTrials(tasks[i], k, observe);
    var selected := SortBy(own, TrialLe);
    CountPermutation(selected, own, IsPassed);
    CountPermutation(selected, own, IsCompleted);
  }

  /** What the run's metrics report, in terms of its tries: every count and every rate. */
  lemma RunFigures(tasks: seq<Task>, k: nat, observe: (string, nat) -> Observation, root: real)
    requires tasks != [] && UniqueIds(tasks) && k > 0
    ensures forall t | t in tasks :: OfTask(AllTrials(tasks, k, observe), t.taskId) != []
    ensures AllTrials(tasks, k, observe) != []
    ensures var trials, tries := AllTrials(tasks, k, observe), Tries(tasks, k, observe);
            var m := Summarize(trials, Summaries(tasks, trials), root);
            var total := |tasks| * k;
            var passed := Count(tries, (t: Try) => Passes(t.expected, t.delivered));
            var verified := Count(tries, (t: Try) => PassesVerified(t.expected, t.delivered));
            && total > 0 && m.total == total && m.passed == passed && m.verified == verified
            && m.unverified == passed - verified
            && m.completed == Count(tries, (t: Try) => Completes(t.expected, t.delivered))
            && m.passRate == Round4(passed as real / total as real) && m.upper == m.passRate
            && m.lower == Round4(verified as real / total as real)
            && m.wilson == Wilson.WilsonLowerBound(passed, total, 0.95, root)
            && m.passAt1Rate == Round4(Count(tasks, (t: Task) => FirstPasses(t, observe)) as real / |tasks| as real)
            && m.passPowerKRate == Round4(Count(tasks, (t: Task) => AlwaysPasses(t, k, observe)) as real / |tasks| as real)
  {
    hide *;
    var trials := AllTrials(tasks, k, observe);
    RunSound(tasks, k, observe);
    PassesSplit(trials);
    RunAgrees(tasks, k, observe);
    RunCounted(tasks, k, observe);
    OneOrMore(|tasks|, k);
    TaskRates(tasks, k, observe);
    MetricsAre(trials, Summaries(tasks, trials), root);
  }

  lemma OneOrMore(n: nat, k: nat)
    requires n > 0 && k > 0
    ensures n * k > 0
  {
  }

  lemma TaskRates(tasks: seq<Task>, k: nat, observe: (string, nat) -> Observation)
    requires UniqueIds(tasks) && k > 0
    requires forall t | t in tasks :: OfTask(AllTrials(tasks, k, observe), t.taskId) != []
    ensures var summaries := Summaries(tasks, AllTrials(tasks, k, observe));
            && Count(summaries, AtFirst) == Count(tasks, (t: Task) => FirstPasses(t, observe))
            && Count(summaries, EveryTime) == Count(tasks, (t: Task) => AlwaysPasses(t, k, observe))
  {
    hide AllTrials, OfTask, SummarizeTask, FirstPasses, AlwaysPasses;
    var summaries := Summaries(tasks, AllTrials(tasks, k, observe));
    forall i: nat | i < |tasks|
      ensures AtFirst(summaries[i]) == FirstPasses(tasks[i], observe)
      ensures EveryTime(summaries[i]) == AlwaysPasses(tasks[i], k, observe)
    {
      SummaryFigures(tasks, k, observe, i);
    }
    CountAlike(summaries, AtFirst, tasks, (t: Task) => FirstPasses(t, observe));
    CountAlike(summaries, EveryTime, tasks, (t: Task) => AlwaysPasses(t, k, observe));
  }

  lemma MetricsAre(trials: seq<Trial>, summaries: seq<TaskSummary>, root: real)
    requires trials != [] && summaries != []
    requires Count(trials, PassedVerified) + Count(trials, PassedUnverified) == Count(trials, IsPassed)
    ensures var m := Summarize(trials, summaries, root);
            var total, passed, verified := |trials|, Count(trials, IsPassed), Count(trials, PassedVerified);
            && m.total == total && m.passed == passed && m.verified == verified && m.unverified == passed - verified
            && m.completed == Count(trials, IsCompleted)
            && m.passRate == Round4(passed as real / total as real) && m.upper == m.passRate
            && m.lower == Round4(verified as real / total as real)
            && m.wilson == Wilson.WilsonLowerBound(passed, total, 0.95, root)
            && m.passAt1Rate == Round4(Count(summaries, AtFirst) as real / |summaries| as real)
            && m.passPowerKRate == Round4(Count(summaries, EveryTime) as real / |summaries| as real)
  {
    hide Count, Round4, Wilson.WilsonLowerBound;
  }
}
