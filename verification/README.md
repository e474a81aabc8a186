# AgentTraceLab: a verified model

AgentTraceLab evaluates recorded agent runs. This project models the parts of it whose correctness is not
visible in one function body, and proves what they are for: for every input, every provider or service
behaviour, and every run.

| file | what it models |
|---|---|
| `ReadyHeap`, `SpanOrdering` | the heap-driven, parent-first order of an OTLP trace |
| `Json`, `Secrets`, `Citations`, `Snapshot`, `Trace`, `DeepResearchAdapter`, `Evaluation` | a DeepResearch snapshot, its normalized trace, and the deterministic checks |
| `RunVerdict`, `TraceShape` | the verdict, the score, the spans and the decisions of an evaluated run, read off its snapshot |
| `RunVerdict`, `TraceShape` | the verdict, the score, the spans and the decisions of an evaluated run, read off its snapshot |
| `FaultInjection`, `FaultDetection`, `FaultEvaluation`, `FaultWitnesses`, `FaultSuite` | the ten snapshot mutations, when each one is detected, and when evaluating its mutant raises |
| `ToolRecovery`, `ToolTrajectory` | tool-failure health in the adapter and in the trajectory scorer |
| `RealArithmetic`, `Rounding`, `Wilson`, `Calibration`, `Percentile` | the statistics, in exact reals, with `round(x, 4)` on top |
| `FreshTraces` | the ledger of observed and reused trace ids of a stability run |
| `Binding`, `RequestObjects` | candidate values written into nested request objects, as values and on the heap |
| `Grouping`, `RoundRobin`, `HardCaseMining` | hard-case mining by round-robin over signature buckets |
| `ChallengeSet`, `Regression` | the challenge set from failure clusters, and the comparison of two benchmark reports |
| `Domains` | source domains, suffix matching and publisher groups |
| `BenchmarkScoring` | three-valued quality gates, the trials they score, and the published rates |
| `PollRun` | waiting for a run: polling, deadline, cancellation, grace period |
| `ClaimJudge` | the batched claim judge with retries, and the merge of its verdicts |
| `Prelude`, `Ordering`, `Counting` | options and results, Python's sort orders, counting and filtering |

`dafny verify dfyconfig.toml` checks everything.

## Conventions

- Datetimes and latencies are integers. Scores, rates and probabilities are exact reals; where the code
  rounds to four digits the model applies `Rounding.Round4` (nearest, ties to even), which is proved monotone.
- The square root in the Wilson bound is any `root >= 0` whose square is the radicand.
- Python exceptions are `Result` or `Option` values; which exception, and in what order checks raise, is
  part of the result type.
- `Platform` holds the two built-ins left open, `str(x)` of a non-string and `int(s)` of a string; every
  theorem about snapshots holds for all such functions.
- Providers, services and clocks are functions `nat -> Response` (the n-th answer) and `nat -> real` (the extra
  time the n-th operation takes): a theorem holds for every sequence of answers and every delay.
- Digests (`case_id`, report and manifest digests) are fields; their value is never inspected.

## Findings

Where the code does not do all that one might expect, the theorem says exactly when it does.

- Citation corruption goes undetected exactly when the injected id is among the evidence ids and every
  other citation resolves. Duplicating a call goes undetected exactly when the first call has no argument
  hash and no other fingerprint repeats. Dropping completion events goes undetected exactly when no call is
  recorded or some decision event still links to one, by its own declared id or through a failure event
  (`FaultDetection.DetectedIffDetectable`). Each of the three has a snapshot that shows it:
  `FaultWitnesses.CitationUnnoticed`, `FaultWitnesses.DuplicateUnnoticed`, `FaultWitnesses.LinkLossUnnoticed`. The other
  seven faults are always detected.
- A mutant can raise where its original evaluates, and so end the whole suite with an error. For each fault the
  condition is exact (`FaultEvaluation.MutantEvaluates`), and a snapshot shows that it occurs:
  - duplicating a call raises exactly when the first call's id has more than 246 characters, so that the copied id
    does not fit a span (`FaultWitnesses.LongCopyRejected`), or when the run is a verified terminal, its first call
    failed, and a recovery event names the copied id with a list that cannot be iterated, which the adapter looks at
    only once a call has that id (`FaultWitnesses.BadListRevealed`);
  - dropping completion events raises exactly when a decision event that is no agent decision and declares no call is
    left with a next failure event whose call id has more than 256 characters (`FaultWitnesses.LongLinkRejected`);
  - adding the secret raises exactly when the number of the added event has more than 250 digits
    (`FaultWitnesses.LongEventNumberRejected`);
  - mutants of the other seven faults evaluate whenever the original does.
- Freshness of a whole run is decided from the run-wide sets, so one verdict covers both candidates and all
  trials: it holds exactly when every evaluation gave one id, all different and none a training id.
- Comparing two benchmark reports compares every baseline trial exactly when the candidate report has all the
  baseline's keys and baseline trials that share a key are equal (`Regression.BaselineAccountedIff`): the index keeps
  the last trial of a key. A baseline trial without a candidate is neither compared nor reported missing
  (`Regression.UnmatchedBaselineIgnored`, `Regression.DroppedBaselineTrial`), and neither is one that a later trial of
  the same key overwrites, whose failures are then not reported resolved (`Regression.OverwrittenBaselineTrial`). New
  minus resolved failures is therefore a statement about pairs only.
- A claim that resolves some of its citations is sent to the judge and its final verdict is the judge's, even
  when other citations are missing (`ClaimJudge.MergeJudgesGradable`; a claim that shows it:
  `ClaimJudge.UnresolvedCitationOverruled`).
- In `_normalize_configured_domain` the check for URL syntax and wildcards rejects nothing that the label
  pattern would accept (`Domains.NormalizeAcceptsIff`).
- The `else 0.0` arm of `_cohen_kappa` cannot be reached (`Calibration.CertainChanceAgrees`).

## Model

| member | source | states |
|---|---|---|
| `ReadyHeap.MinHeap.Push` | src/agenttracelab/adapters/openinference.py:178-191 | pushing keeps the binary-heap order and adds exactly one key |
| `ReadyHeap.MinHeap.Pop` | src/agenttracelab/adapters/openinference.py:185 | popping keeps the heap order, removes exactly one key, and that key is least among all queued |
| `SpanOrdering.OrderSpansParentFirst` | src/agenttracelab/adapters/openinference.py:162-194 | the sort fails on duplicate ids exactly when ids repeat, fails on a cycle exactly when some span is its own ancestor inside the trace, and otherwise returns the lexicographically least parent-first permutation |
| `SpanOrdering.GreedyIsLeast` | src/agenttracelab/adapters/openinference.py:183-191 | always taking the least ready span gives an ordering no other parent-first ordering beats by (start, end, id) |
| `SpanOrdering.CycleHasNoOrdering` | src/agenttracelab/adapters/openinference.py:192-193 | a trace with a parent cycle has no parent-first ordering at all, so raising loses nothing |
| `SpanOrdering.CycleIffChainNeverLeaves` | src/agenttracelab/adapters/openinference.py:192-193 | there is a cycle, self-parents included, exactly when some span's parent chain never leaves the trace |
| `SpanOrdering.OrderIgnoresArrival` | src/agenttracelab/adapters/openinference.py:162-194 | two arrival orders of the same spans give the same result or the same error |
| `Ordering.StrLtIs` | src/agenttracelab/adapters/openinference.py:178-191 | span ids compare by code points: a string comes first when it is a proper prefix of the other, or is smaller at the first difference |
| `SpanOrdering.LinkChildren` | src/agenttracelab/adapters/openinference.py:169-175 | the child index lists each in-trace parent's children in arrival order and each indegree is 1 exactly for spans with an in-trace parent |
| `SpanOrdering.ReleaseChildren` | src/agenttracelab/adapters/openinference.py:187-191 | decrementing the children of a placed span queues exactly the spans that this made ready |
| `Citations.CorruptedReportCitations` | src/agenttracelab/adapters/deepresearch.py:229-237 | appending a space and one well-formed citation adds just that id to the scanned citations, whatever the report text |
| `Citations.CitedIff` | src/agenttracelab/adapters/deepresearch.py:229-237 | an id is scanned from a report exactly when it is well formed and `[id]` or `[^id]` occurs in the text |
| `Citations.ScanMissesNone` | src/agenttracelab/adapters/deepresearch.py:229-237 | the scan, which skips each match, finds what looking at every position by itself finds, in the same order |
| `Secrets.InjectedSecretMatches` | src/agenttracelab/evaluation.py:19-24 | the injected authorization value, as JSON writes it, matches a credential pattern |
| `Secrets.QuoteSeparates` | src/agenttracelab/evaluation.py:489-491 | no credential match contains a quotation mark or depends on what lies beyond one, so searching serialized text is searching its strings |
| `Secrets.JsonSecretIff` | src/agenttracelab/evaluation.py:489-491 | a JSON value holds a secret exactly when one of its strings or keys, at any depth, does |
| `Secrets.KeysMatch` | src/agenttracelab/evaluation.py:20-21 | each of the nine key and token prefixes followed by any token of at least eight characters matches |
| `Secrets.BearersMatch` | src/agenttracelab/evaluation.py:22 | `Bearer` in any case, white space and any token of at least eight characters match |
| `Secrets.WebTokensMatch` | src/agenttracelab/evaluation.py:23 | `eyJ` and three dot-separated runs of at least eight characters match |
| `Secrets.MatchesAreLong` | src/agenttracelab/evaluation.py:19-24 | every match starts a word and has at least the length of its prefix and eight token characters |
| `Secrets.DecodedEscaped` | src/agenttracelab/evaluation.py:489-491 | reading a serialized string back gives the string, so the search is over text that stands for exactly the leaves |
| `DeepResearchAdapter.CollectDecisions` | src/agenttracelab/adapters/deepresearch.py:301-382 | the loop yields one decision per decision event, in event order, each built from that event and the events after it |
| `DeepResearchAdapter.FirstToolEventIsLeast` | src/agenttracelab/adapters/deepresearch.py:301-382 | the tool event a decision is linked to is the fitting later event of least index, and there is none exactly when no later event fits |
| `TraceShape.SpansInOrder` | src/agenttracelab/adapters/deepresearch.py:388-399 | spans follow the clock; at one instant events come before calls, events by their ids, calls in the order listed |
| `TraceShape.EventSpanIs` | src/agenttracelab/adapters/deepresearch.py:125-148 | every event has its span: its id, name, time, kind and status are what its type and payload say |
| `TraceShape.CallSpanIs` | src/agenttracelab/adapters/deepresearch.py:143-148 | every call has its span, under its own id, from its start to its completion, with the status it ended in |
| `TraceShape.DecisionIs` | src/agenttracelab/adapters/deepresearch.py:301-382 | the decision of each decision event has the disposition of its kind and is linked to a call exactly when the event is about that call |
| `TraceShape.EnvelopeIs` | src/agenttracelab/adapters/deepresearch.py:446-448 | the trace names the run, its status and task, and never ends before it starts |
| `TraceShape.MetadataIs` | src/agenttracelab/adapters/deepresearch.py:446-530 | the figures of the metadata are counts over the records, and the checkpoint rate is absent exactly without checkpoints |
| `Json.IterateIs` | src/agenttracelab/adapters/deepresearch.py:168-184 | a loop over a JSON value visits the characters of a string, the items of a list or the keys of an object, nothing for a false value, and raises exactly for a true scalar |
| `TraceShape.SameFingerprintIff` | src/agenttracelab/adapters/deepresearch.py:455-460 | calls share a fingerprint exactly when task, tool, source mode and argument hash are equal, as long as no name holds a bar |
| `TraceShape.AdaptsIff` | src/agenttracelab/adapters/deepresearch.py:384-548 | a snapshot is normalized exactly when its names fit the trace schema, no call ends before it starts, and the lists Python iterates can be iterated |
| `Evaluation.FailureListed` | src/agenttracelab/evaluation.py:515-557 | a check id is among the failure categories exactly when its own rule failed as a required check |
| `Evaluation.PassedIff` | src/agenttracelab/evaluation.py:543-553 | an evaluation passes exactly when no rule came out as a failed required check |
| `Evaluation.ScoreIs` | src/agenttracelab/evaluation.py:540-542 | the score is the percentage of passing rules among those that pass or fail, 100 exactly when something passes and nothing fails, 0 exactly when nothing passes |
| `RunVerdict.CheckTells` | src/agenttracelab/evaluation.py:51-511 | each of the nineteen checks of an evaluated snapshot passes, fails or does not apply exactly as the records of the snapshot say, and is required or advisory as stated |
| `RunVerdict.PassesIff` | src/agenttracelab/evaluation.py:538-557 | a run passes exactly when its snapshot breaks no requirement, and the failure categories are exactly the requirements broken |
| `RunVerdict.ScoreIsShareMet` | src/agenttracelab/evaluation.py:540-542 | the score of a run is the percentage of the requirements met among those that apply to its snapshot |
| `RunVerdict.LinksAre` | src/agenttracelab/adapters/deepresearch.py:301-382 | some decision links to a recorded call exactly when some decision event is about one, and there is a decision exactly when some event decides |
| `RunVerdict.SecretsAre` | src/agenttracelab/evaluation.py:489-499 | the trace leaks a secret exactly when one of the strings of the snapshot that it carries does |
| `FaultInjection.InjectFault` | src/agenttracelab/fault_injection.py:119-167 | the mutant differs from the original only in the record its fault names, and there only in the one entry; injection raises exactly when that record is missing, the usage value is malformed, or the copied call id is taken |
| `FaultInjection.InjectionFrame` | src/agenttracelab/fault_injection.py:119-167 | fault by fault: every other field and every other item keep their values, and the changed entry holds what makes the fault |
| `FaultInjection.InjectionRaises` | src/agenttracelab/fault_injection.py:112-167 | which of the three errors is raised, each if and only if its own condition on the snapshot holds |
| `FaultInjection.MutantValid` | src/agenttracelab/fault_injection.py:167 | every mutant still satisfies the snapshot's identity rules (ascending unique events, unique calls) |
| `FaultDetection.DetectedIffDetectable` | src/agenttracelab/fault_injection.py:33-44 | inject, adapt, evaluate: for every snapshot and fault the expected check is among the failures if and only if the snapshot meets a condition readable off it beforehand |
| `FaultDetection.LinkLossFault` | src/agenttracelab/adapters/deepresearch.py:301-382 | after dropping completion events the link check fails exactly when calls exist and no decision event declares a recorded call (with, for an agent decision, a later failure event that fits) or has one named by the next failure event |
| `FaultDetection.CitationFault` | src/agenttracelab/evaluation.py:147-171 | the corrupted report fails the citation check exactly when some cited id, old or injected, has no evidence |
| `FaultDetection.DuplicateFault` | src/agenttracelab/evaluation.py:240-256 | a duplicated call fails the duplicate check exactly when it carries a fingerprint or another fingerprint already repeats |
| `FaultDetection.ContractFault` | src/agenttracelab/evaluation.py:125-144 | failing one required contract makes the contract check fail |
| `FaultDetection.ResultLossFault` | src/agenttracelab/evaluation.py:374-403 | a call left running makes the tool-result check fail |
| `FaultDetection.SecretFault` | src/agenttracelab/evaluation.py:489-499 | the injected event carries a credential into the trace and fails the secret check |
| `FaultSuite.OtherChecksUnchanged` | src/agenttracelab/fault_injection.py:126-133 | citation, source-mode and checkpoint faults leave every other check's outcome as it was |
| `FaultEvaluation.MutantEvaluates` | src/agenttracelab/fault_injection.py:195-197 | given that the original evaluates, the mutant raises exactly under a condition read off the original: a copied id, a fallen-back link or an event number too long for the trace schema, or a copied id that makes a recovery list count which cannot be iterated |
| `FaultDetection.SpansFitIff` | src/agenttracelab/models.py:43-60 | the span schema (id and name of 1 to 256 characters, no end before the start) accepts all spans exactly when every event and every call meets it |
| `FaultWitnesses.BadListRevealed` | src/agenttracelab/adapters/deepresearch.py:168-184 | a valid snapshot that evaluates while its duplicate-call mutant raises over a recovery list |
| `FaultWitnesses.LongCopyRejected` | src/agenttracelab/models.py:44 | a valid snapshot that evaluates while the id of its copied call does not fit a span |
| `FaultWitnesses.LongLinkRejected` | src/agenttracelab/models.py:68 | a valid snapshot that evaluates while, without completion events, a decision links to an id that does not fit |
| `FaultWitnesses.LongEventNumberRejected` | src/agenttracelab/models.py:44 | a valid snapshot that evaluates while the number of the added event does not fit a span id |
| `FaultWitnesses.CitationUnnoticed` | src/agenttracelab/fault_injection.py:126-127 | a valid snapshot whose citation fault goes undetected |
| `FaultWitnesses.DuplicateUnnoticed` | src/agenttracelab/fault_injection.py:161-166 | a valid snapshot whose duplicated call goes undetected |
| `FaultWitnesses.LinkLossUnnoticed` | src/agenttracelab/fault_injection.py:144-147 | a valid snapshot whose lost completion events go undetected |
| `FaultSuite.NoFallbackLinks` | src/agenttracelab/adapters/deepresearch.py:301-382 | without failed tool events and self-declared call ids no decision link survives the loss of completion events |
| `FaultSuite.RunFaultSuite` | src/agenttracelab/fault_injection.py:193-239 | the loop reports for every case whether it was detected, counts them, lists the missed ones in order, and raises exactly when the original does or else for the first case whose injection or mutant does, naming which |
| `FaultSuite.DefaultCaseDetected` | src/agenttracelab/fault_injection.py:198-199 | with the default expectations a case is detected exactly when its fault is detectable in the snapshot |
| `FaultSuite.CaseDetectedIff` | src/agenttracelab/fault_injection.py:193-214 | a case is detected exactly when its mutant breaks every requirement the case names, or that of its fault when it names none |
| `ToolRecovery.ToolFailureMetrics` | src/agenttracelab/adapters/deepresearch.py:151-215 | the adapter's counters are the numbers of completed, failed, recovered, unrecovered and explicitly recovered calls |
| `ToolRecovery.RecoveryConserved` | src/agenttracelab/adapters/deepresearch.py:203-215 | recovered plus unrecovered is failed, explicit recoveries are recoveries, and the counts fit the calls |
| `ToolRecovery.UnrecoveredFailures` | src/agenttracelab/tool_trajectory.py:190-202 | the scorer counts the failures no later success of the same task supersedes |
| `ToolRecovery.ScorerAgrees` | src/agenttracelab/tool_trajectory.py:190-202 | the scorer's count is never below the adapter's, and equal to it unless the run is a verified terminal |
| `RunVerdict.FiguresAre` | src/agenttracelab/adapters/deepresearch.py:151-215 | the adapter counts as failed the calls that ended badly, and as unrecovered those of them that nothing in the snapshot made good |
| `ToolTrajectory.OrderedSubset` | src/agenttracelab/tool_trajectory.py:172-177 | one greedy pass says yes exactly when the expected tools occur as a subsequence |
| `ToolTrajectory.DuplicateCount` | src/agenttracelab/tool_trajectory.py:180-187 | the counting and the summing pass together count the fingerprinted calls that repeat an earlier one |
| `Rounding.Round4Monotone` | src/agenttracelab/stability.py:105 | rounding to four digits preserves order |
| `Rounding.Round4Close` | src/agenttracelab/stability.py:105 | a rounded value is within half a ten-thousandth of the exact one |
| `Rounding.Round4Nearest` | src/agenttracelab/stability.py:105 | the rounded value is a multiple of a ten-thousandth, none is nearer, and of two equally near ones it is the even one |
| `Wilson.RadicandNonNegative` | src/agenttracelab/stability.py:102-104 | the square root is only taken of non-negative numbers |
| `Wilson.BoundSolvesScoreEquation` | src/agenttracelab/stability.py:101-105 | the bound solves (k/n - q)^2 = z^2 q(1-q)/n and is its smallest solution |
| `Wilson.BoundWithinProportion` | src/agenttracelab/stability.py:105 | it lies in [0, k/n], so the maximum with 0 never changes it, and is 0 exactly at k = 0 |
| `Wilson.BoundAtAllSuccesses` | src/agenttracelab/stability.py:101-105 | with all trials successful it is n/(n + z^2) |
| `Wilson.BoundGrowsWithSuccesses` | src/agenttracelab/stability.py:101-105 | more successes give a strictly larger bound |
| `Wilson.BoundShrinksWithConfidence` | src/agenttracelab/stability.py:89-105 | a larger z gives a smaller bound, strictly so unless k = 0 |
| `Wilson.ReportedBound` | src/agenttracelab/stability.py:92-105 | the function raises exactly on an empty sample, an impossible count or an unknown confidence; its value is the exact bound up to rounding, is in [0, 1] and at most the rounded success rate |
| `Calibration.KappaRange` | src/agenttracelab/calibration.py:134-147 | unrounded kappa of any two label lists is in [-1, 1], and on non-empty lists is 1 exactly when they agree everywhere |
| `Calibration.KappaSymmetric` | src/agenttracelab/calibration.py:134-147 | swapping the raters does not change kappa |
| `Calibration.KappaLaw` | src/agenttracelab/calibration.py:139-147 | with n labels, A agreements and C the sum of the products of the tallies, kappa times n^2 - C is nA - C; so it is 0 exactly when nA = C and negative exactly when nA < C |
| `Calibration.CertainChanceAgrees` | src/agenttracelab/calibration.py:145-146 | expected agreement 1 forces observed agreement 1, so the other arm is dead |
| `Calibration.RatesLinked` | src/agenttracelab/calibration.py:139-144 | twice the expected agreement never exceeds 1 plus the observed one, which is why kappa never drops below -1 |
| `Calibration.ReportedKappaRange` | src/agenttracelab/calibration.py:134-147 | it raises exactly on different lengths, and the rounded value stays in [-1, 1] |
| `Calibration.ConfusionMatrix` | src/agenttracelab/calibration.py:150-157 | cells incremented in place count exactly the pairs with that human and that predicted label |
| `Calibration.MatrixRows` | src/agenttracelab/calibration.py:150-157 | each row sums to how often the human gave that label |
| `Calibration.MatrixColumns` | src/agenttracelab/calibration.py:150-157 | each column sums to how often the judge gave that label |
| `Calibration.MatrixTrace` | src/agenttracelab/calibration.py:150-157 | the diagonal sums to the number of agreements |
| `Percentile.PercentileMonotone` | src/agenttracelab/deepresearch_benchmark.py:449-459 | a higher percentile is never smaller, so p50 <= p95 |
| `Percentile.PercentileBetweenExtremes` | src/agenttracelab/deepresearch_benchmark.py:449-459 | it lies between the least and the greatest latency and equals them at 0 and 1 |
| `Percentile.PercentileIgnoresOrder` | src/agenttracelab/deepresearch_benchmark.py:449-459 | permuting the latencies changes nothing |
| `Percentile.PercentileAtRank` | src/agenttracelab/deepresearch_benchmark.py:449-459 | at rank i of n-1 the percentile is the i-th smallest latency |
| `Percentile.InterpolateLinear` | src/agenttracelab/deepresearch_benchmark.py:455-459 | between neighbouring ranks it is linear: the value at a mix of two positions is the same mix of their values |
| `Percentile.PercentileIs` | src/agenttracelab/deepresearch_benchmark.py:449-459 | the percentile of any non-empty list is the rounded interpolation at position (n-1)p of its ascending arrangement, whatever order the list came in |
| `Percentile.MedianIs` | src/agenttracelab/deepresearch_benchmark.py:449-459 | p50 of an odd number of latencies is the middle one, of an even number the rounded mean of the two middle ones |
| `FreshTraces.Ledger.EvaluateCandidate` | src/agenttracelab/gepa_runtime.py:335-355 | one evaluation adds its ids to the observed set, adds exactly the repeated ones to the reused set, and scores 0 unless each task gave one new id |
| `FreshTraces.LedgerStep` | src/agenttracelab/gepa_runtime.py:335-343 | updating the sets evaluation by evaluation gives the sets of the whole history |
| `FreshTraces.MeanOfScores` | src/agenttracelab/gepa_runtime.py:344-355 | the score of an evaluation is, up to rounding, the mean of its scores, an error counting as zero |
| `FreshTraces.FreshRunIff` | src/agenttracelab/stability.py:215-217 | nothing reused and one id per evaluation means every id was produced once and outside training |
| `FreshTraces.RunStability` | src/agenttracelab/stability.py:150-217 | over the whole paired-trial loop, `reused` is exactly the ids seen again, and the freshness verdict holds exactly when all evaluations gave one id, all distinct and none a training id |
| `Binding.PutGet` | src/agenttracelab/gepa_runtime.py:284-294 | reading a path just written gives the written value |
| `Binding.GetPut` | src/agenttracelab/gepa_runtime.py:284-294 | writing back the value that is there changes nothing |
| `Binding.PutPut` | src/agenttracelab/gepa_runtime.py:284-294 | the last write to a path wins |
| `Binding.WritableIffReadable` | src/agenttracelab/gepa_runtime.py:284-294 | a write succeeds exactly where a value exists |
| `Binding.KeysKept` | src/agenttracelab/gepa_runtime.py:284-294 | no key appears or disappears except below the overwritten leaf |
| `Binding.OthersKept` | src/agenttracelab/gepa_runtime.py:284-294 | every path apart from the written one keeps its value |
| `Binding.WritesCommute` | src/agenttracelab/gepa_runtime.py:284-294 | writes to paths apart commute, including in whether they fail |
| `Binding.BindingOrderIrrelevant` | src/agenttracelab/gepa_runtime.py:305-308 | prefix-free bindings succeed or fail together and give the same request in any order |
| `Binding.BoundPathsHold` | src/agenttracelab/gepa_runtime.py:305-308 | after binding, every bound path of a prefix-free list holds its candidate value |
| `Binding.FirstFailureIs` | src/agenttracelab/gepa_runtime.py:284-308 | the first binding that cannot be made decides the error: a missing key before a missing path |
| `RequestObjects.SetExistingPath` | src/agenttracelab/gepa_runtime.py:284-294 | walking a cursor through heap dictionaries and assigning the leaf turns the object into the functional write, or changes nothing and fails exactly where the path does not exist |
| `RequestObjects.WrittenThrough` | src/agenttracelab/gepa_runtime.py:284-294 | an assignment deep in a tree of dictionaries is a write along its path seen from the root |
| `RequestObjects.DeepCopy` | src/agenttracelab/gepa_runtime.py:304 | the copy is equal and shares no dictionary with the original |
| `RequestObjects.BindRequest` | src/agenttracelab/gepa_runtime.py:305-308 | the binding loop performs all writes in order, or stops with the first missing key or path |
| `RequestObjects.BindCandidate` | src/agenttracelab/gepa_runtime.py:297-310 | every task gets a fresh bound request, no two of them share a dictionary, no given request changes, and the first task that cannot be bound gives the error |
| `Grouping.FillGroups` | src/agenttracelab/mining.py:155-158 | filing items into a dictionary of lists gives, for each key, its items in order, and the keys in order of first use |
| `Grouping.DistinctByFirstUse` | src/agenttracelab/mining.py:155-158 | keys are kept in the order of their first use |
| `RoundRobin.Select` | src/agenttracelab/mining.py:163-177 | popping bucket after bucket yields the first items of the full round-robin schedule, stopping only at the budget or when nothing is left |
| `RoundRobin.SelectedTotal` | src/agenttracelab/mining.py:165-177 | the size is min(budget, sum over buckets of min(size, cap)) |
| `RoundRobin.SelectedFairly` | src/agenttracelab/mining.py:168-175 | a bucket that could still give is at most one item behind any other and never behind a later one |
| `RoundRobin.BucketsServed` | src/agenttracelab/mining.py:178 | the number of buckets served is min(budget, number of buckets) |
| `RoundRobin.SelectedPrefixes` | src/agenttracelab/mining.py:173 | each bucket contributes a prefix of itself, in its order |
| `HardCaseMining.MinedIff` | src/agenttracelab/mining.py:86-115 | a trial is mined exactly when the policy asks for a failure, regression or resolution it shows |
| `HardCaseMining.UnsafeIsCritical` | src/agenttracelab/mining.py:91-101 | an unsafe candidate that failed or regressed from a safe baseline is critical |
| `HardCaseMining.SeverityIs` | src/agenttracelab/mining.py:86-115 | kind and severity of a mined trial, each read off the scores, outcomes and policy: critical when unsafe, medium when only resolved, high otherwise |
| `HardCaseMining.PriorityIs` | src/agenttracelab/mining.py:117-122 | the priority is, up to rounding, the severity weight plus 20 per point lost, 10 per point missing and, where a failure was resolved, 10 per point gained |
| `HardCaseMining.WorseRanksNoLower` | src/agenttracelab/mining.py:117-122 | among cases of one kind and severity, a larger loss or a lower score never lowers the priority |
| `HardCaseMining.SignatureIs` | src/agenttracelab/mining.py:91-113 | the signature lists in order exactly the failed checks behind the case, with the marker or the default name where the code adds one |
| `HardCaseMining.PriorityBands` | src/agenttracelab/mining.py:117-122 | the priority adjustments never lift a case past the next severity |
| `HardCaseMining.EntryIgnoresCheckOrder` | src/agenttracelab/mining.py:91-113 | the order in which failed checks are listed does not affect the entry |
| `HardCaseMining.EligibleSorted` | src/agenttracelab/mining.py:149-154 | the eligible cases are in order of falling priority, then of case id |
| `HardCaseMining.EligibleAre` | src/agenttracelab/mining.py:149-153 | the eligible cases are the entries of the mined trials, one for each |
| `HardCaseMining.BucketsInOrder` | src/agenttracelab/mining.py:155-162 | buckets are visited by falling highest priority, those of equal priority by key |
| `HardCaseMining.SameBucketIff` | src/agenttracelab/mining.py:156-157 | cases share a bucket exactly when kind and signature are the same, as long as no check name holds a bar |
| `HardCaseMining.BucketOrderUnique` | src/agenttracelab/mining.py:159-162 | the bucket order does not depend on the order of filing |
| `HardCaseMining.Mine` | src/agenttracelab/mining.py:137-188 | the report holds the round-robin selection over the sorted eligible cases, with its counts and coverage |
| `HardCaseMining.SelectionTotals` | src/agenttracelab/mining.py:163-179 | the exact number of cases and of represented signatures, and coverage 1 when the budget reaches every signature |
| `HardCaseMining.SelectionTakesHighest` | src/agenttracelab/mining.py:154-175 | of each signature the cases taken precede in priority all cases left, and do not exceed the cap |
| `HardCaseMining.SelectionFair` | src/agenttracelab/mining.py:165-177 | a signature neither exhausted nor capped is at most one case behind any other |
| `HardCaseMining.FirstCaseIsTop` | src/agenttracelab/mining.py:159-175 | whatever the budget, the first case is one of highest priority |
| `ChallengeSet.UnsignedIff` | src/agenttracelab/deepresearch_regression.py:134-143 | only a passed, completed trial with no failure category and no held claim review goes unclustered |
| `ChallengeSet.SignatureIgnoresOrder` | src/agenttracelab/deepresearch_regression.py:134-143 | the signature does not depend on the order of failure categories |
| `ChallengeSet.SelectTasks` | src/agenttracelab/deepresearch_regression.py:187-206 | the loop with its early break visits clusters until the budget is spent and selects the concatenation of their choices |
| `ChallengeSet.ChallengeWithinCaps` | src/agenttracelab/deepresearch_regression.py:187-206 | no duplicate task, at most max_tasks in all and max_tasks_per_cluster from each cluster, and the selection is the concatenation of the choices |
| `ChallengeSet.ChallengeMaximal` | src/agenttracelab/deepresearch_regression.py:187-206 | with budget left, a failing task is missing only if every cluster it is in hit its cap |
| `ChallengeSet.ChoicesMaximal` | src/agenttracelab/deepresearch_regression.py:189-206 | even without budget left, a visited cluster passes over a task only at its cap or when it spends the last of the budget |
| `ChallengeSet.SentinelIsLowest` | src/agenttracelab/deepresearch_regression.py:207-218 | without failures the one selected task is the first of lowest score |
| `ChallengeSet.BuildChallengeSet` | src/agenttracelab/deepresearch_regression.py:151-232 | clusters, selection and sentinel together, and the error exactly when no selected task is in the manifest |
| `ChallengeSet.ClustersInOrder` | src/agenttracelab/deepresearch_regression.py:179-186 | of two reported clusters the earlier has more trials with a safety failure, or as many and more trials, or as many of both and the smaller signature |
| `ChallengeSet.UnreportedComesAfter` | src/agenttracelab/deepresearch_regression.py:179-206 | a cluster that is not reported comes after every reported one in that order |
| `ChallengeSet.ChoicesTakeFirst` | src/agenttracelab/deepresearch_regression.py:189-206 | a visited cluster gives its first tasks, in the order of severity, that no earlier cluster gave |
| `ChallengeSet.RankIs` | src/agenttracelab/deepresearch_regression.py:207-218 | a task's rank is the least score of its trials, a missing score counting as -1 |
| `Regression.Compare` | src/agenttracelab/deepresearch_regression.py:298-365 | pairs in key order, both counters, the missing keys and the safety total are functions of the two reports |
| `Regression.FailuresConserved` | src/agenttracelab/deepresearch_regression.py:309-321 | for each category, new minus resolved is candidate minus baseline occurrences over the pairs |
| `Regression.SafetyIsSumOfNew` | src/agenttracelab/deepresearch_regression.py:365 | the safety total is the sum of the new counts of the four safety categories |
| `Regression.SwapSwapsCounts` | src/agenttracelab/deepresearch_regression.py:309-321 | over coinciding keys, swapping the reports swaps new and resolved |
| `Regression.PairsInOrder` | src/agenttracelab/deepresearch_regression.py:309-312 | pairs come by task id, then by trial number |
| `Regression.PairSays` | src/agenttracelab/deepresearch_regression.py:312-342 | each pair lists, in order and once, exactly the failures new and resolved between its two trials, and their change of score up to rounding |
| `Regression.MissingInOrder` | src/agenttracelab/deepresearch_regression.py:303-307 | keys without a baseline are listed in the order the candidate report first uses them |
| `Regression.ComparedIffInBoth` | src/agenttracelab/deepresearch_regression.py:303-311 | a key is compared exactly when both reports have it, and listed as missing exactly when only the candidate report has it |
| `Regression.ComparedTrials` | src/agenttracelab/deepresearch_regression.py:300-342 | a trial is compared exactly when both reports have its key and no later trial of its own report replaces it |
| `Regression.BaselineAccountedIff` | src/agenttracelab/deepresearch_regression.py:300-311 | every baseline trial is compared exactly when the candidate report has all the baseline's keys and baseline trials of one key are equal |
| `Regression.CandidateAccountedIff` | src/agenttracelab/deepresearch_regression.py:300-311 | every candidate trial is compared or reported missing exactly when candidate trials of one key that the baseline has are equal |
| `Regression.UnmatchedBaselineIgnored` | src/agenttracelab/deepresearch_regression.py:301-311 | two baselines that index the candidate's keys alike give the same pairs, missing keys, counters and safety total, whatever else they hold |
| `Regression.DroppedBaselineTrial` | src/agenttracelab/deepresearch_regression.py:303-311 | two reports with no missing key and a baseline trial that is in no pair |
| `Regression.OverwrittenBaselineTrial` | src/agenttracelab/deepresearch_regression.py:300-321 | two reports with equal keys where a failing baseline trial is overwritten and its failure is not reported resolved |
| `Domains.NormalizeAcceptsIff` | src/agenttracelab/deepresearch_benchmark.py:646-660 | exactly the names of at most 253 characters whose labels are valid are accepted (RFC 1035 sections 2.3.1 and 2.3.4, RFC 1123 section 2.1) |
| `Domains.FoldIgnoresPadding` | src/agenttracelab/deepresearch_benchmark.py:646-650 | white space around a configured domain does not matter |
| `Domains.FoldIgnoresCase` | src/agenttracelab/deepresearch_benchmark.py:646-650 | the case of its ASCII letters does not matter |
| `Domains.FoldIgnoresFinalDot` | src/agenttracelab/deepresearch_benchmark.py:646-650 | a dot at its end does not matter |
| `Domains.LettersStoodFor` | src/agenttracelab/deepresearch_benchmark.py:646-650 | the characters outside ASCII that fold to ASCII text fold as the letters they stand for |
| `Domains.MatchesByLabels` | src/agenttracelab/deepresearch_benchmark.py:641-643 | a host matches a root exactly when its last labels are the root's labels |
| `Domains.UnderReflexive` | src/agenttracelab/deepresearch_benchmark.py:641-643 | every non-empty name matches itself, and the empty one nothing |
| `Domains.UnderAntisymmetric` | src/agenttracelab/deepresearch_benchmark.py:641-643 | names that match each other are equal |
| `Domains.UnderTransitive` | src/agenttracelab/deepresearch_benchmark.py:641-643 | matching is transitive |
| `Domains.RootsOfHostChain` | src/agenttracelab/deepresearch_benchmark.py:663-671 | the roots of one host form a chain, and roots of equal length are equal |
| `Domains.GroupUnique` | src/agenttracelab/deepresearch_benchmark.py:663-671 | the longest match is unique and lies under every other match |
| `Domains.GroupIgnoresOrder` | src/agenttracelab/deepresearch_benchmark.py:663-671 | the group depends only on which roots are configured |
| `Domains.ValidateDomains` | src/agenttracelab/deepresearch_benchmark.py:148-167 | the validator reports the first broken rule, and none exactly when the lists are valid and counted roots do not overlap |
| `Domains.ErrorIs` | src/agenttracelab/deepresearch_benchmark.py:145-167 | each rule is reported exactly when the lists break it and none of the rules before it |
| `Domains.AtMostOneRoot` | src/agenttracelab/deepresearch_benchmark.py:156-166 | with validated roots a host is under at most one of them |
| `Domains.GroupsWithinRoots` | src/agenttracelab/deepresearch_benchmark.py:560-583 | evidence passing the include check comes from no more groups than there are roots |
| `Domains.GroupsAreRootsReached` | src/agenttracelab/deepresearch_benchmark.py:560-583 | with validated roots the groups counted are exactly the roots that some evidence comes from |
| `BenchmarkScoring.QualityGateOutcome` | src/agenttracelab/deepresearch_benchmark.py:674-730 | the case analysis is the three-valued conjunction of semantic, acceptance and (if required) fulfillment gates |
| `BenchmarkScoring.GatePassesIff` | src/agenttracelab/deepresearch_benchmark.py:701-722 | a trial passes exactly when the process did and no claim failure is listed, and then was not refuted |
| `BenchmarkScoring.QualityIs` | src/agenttracelab/deepresearch_benchmark.py:687-703 | verified_pass exactly when semantic gate and acceptance hold and fulfillment, if required, does; verified_fail exactly when one of them is refuted; unverified otherwise |
| `BenchmarkScoring.TrialOutcome` | src/agenttracelab/deepresearch_benchmark.py:733-804 | passed, verified and completed of a trial, each read off the gates and the counts observed |
| `BenchmarkScoring.TrialFailures` | src/agenttracelab/deepresearch_benchmark.py:674-804 | which failure categories a trial lists |
| `BenchmarkScoring.BuiltTrialSound` | src/agenttracelab/deepresearch_benchmark.py:733-804 | a passed trial completed, is never verified_fail, and is exactly one of verified and unverified |
| `BenchmarkScoring.PassesSplit` | src/agenttracelab/deepresearch_benchmark.py:1325-1332 | verified and unverified passes add up to the passes, which are among the completions |
| `BenchmarkScoring.PassAtOneIsFirst` | src/agenttracelab/deepresearch_benchmark.py:1287-1304 | Pass@1 of a task is the outcome of its first trial |
| `BenchmarkScoring.SummariesAddUp` | src/agenttracelab/deepresearch_benchmark.py:1287-1304 | per-task passes sum to the total passes |
| `BenchmarkScoring.RunRates` | src/agenttracelab/deepresearch_benchmark.py:1307-1400 | in every run: evidence lower bound <= pass rate = evidence upper bound, Pass^k <= Pass@1, Pass^k <= pass rate, Wilson bound <= pass rate, all in [0, 1] |
| `BenchmarkScoring.RunFigures` | src/agenttracelab/deepresearch_benchmark.py:1307-1400 | every published count and rate of a run is a count over what its tries delivered: the lower bound counts exactly the passes whose gates all held, the upper one all passes |
| `BenchmarkScoring.SummaryFigures` | src/agenttracelab/deepresearch_benchmark.py:1287-1304 | the figures of a task summary are counts over what running the task delivered |
| `BenchmarkScoring.TaskRates` | src/agenttracelab/deepresearch_benchmark.py:1307-1400 | as many summaries report Pass@1, and Pass^k, as there are tasks whose first try, and whose every try, passed |
| `PollRun.PollPhase` | src/agenttracelab/deepresearch_benchmark.py:866-885 | a phase polls in order, each poll but the last pending and in time, stops for exactly the stated reason, and makes at most ceil(span/interval)+1 polls |
| `PollRun.PollUntilTerminal` | src/agenttracelab/deepresearch_benchmark.py:857-885 | the main phase alone decides the outcome; expiry leads to one cancellation and a grace phase if configured, and then to a timeout whatever happens |
| `PollRun.AtMostOneCancel` | src/agenttracelab/deepresearch_benchmark.py:872-884 | at most one cancellation in the whole log, not before the deadline, and none in a run that returns a payload, which is terminal |
| `PollRun.ReturnsIffArrives` | src/agenttracelab/deepresearch_benchmark.py:867-885 | a payload is returned exactly when a terminal one arrives before any reading is late, and it is that one |
| `PollRun.OutcomeIs` | src/agenttracelab/deepresearch_benchmark.py:866-885 | the last poll of the main phase decides: each of the seven terminal statuses is returned, no other is, and each failure raises its own error |
| `PollRun.RequestsInOrder` | src/agenttracelab/deepresearch_benchmark.py:866-885 | polls, the cancellation and the polls of the grace period use the answers in order, and polls are at least the interval apart |
| `PollRun.TimesOutLate` | src/agenttracelab/deepresearch_benchmark.py:871-884 | a run times out only at a reading at least the timeout past the start, and an uneventful grace period lasts its full length |
| `PollRun.MaxPollsCover` | src/agenttracelab/deepresearch_benchmark.py:871-885 | the bound on polls is the least number whose sleeps cover the phase |
| `ClaimJudge.AcceptedIsFaithful` | src/agenttracelab/claim_evidence.py:310-328 | an accepted answer has every requested claim once, each citing only its own evidence |
| `ClaimJudge.AcceptedIff` | src/agenttracelab/claim_evidence.py:292-329 | an answer is accepted exactly when it came with a 2xx status, follows the schema and is faithful, whichever of the three verdicts it gives |
| `ClaimJudge.RejectedFor` | src/agenttracelab/claim_evidence.py:297-328 | which of its faults a 2xx answer is rejected for: schema, then ids, then evidence |
| `ClaimJudge.RetriedIff` | src/agenttracelab/claim_evidence.py:277-348 | another attempt follows exactly a request without an answer, a status 408, 409, 429 or 5xx, or a 2xx answer that is not faithful |
| `ClaimJudge.CorrectsLatest` | src/agenttracelab/claim_evidence.py:334-348 | an attempt carries the correction of the latest rejected answer, also across attempts that got no answer |
| `ClaimJudge.NothingToCorrect` | src/agenttracelab/claim_evidence.py:246-348 | without a rejected answer before it an attempt carries no correction |
| `ClaimJudge.JudgeBatch` | src/agenttracelab/claim_evidence.py:229-348 | the attempt loop: which responses are retried, which correction each request carries, which sleeps are made, and how it ends |
| `ClaimJudge.FirstSettlingAnswer` | src/agenttracelab/claim_evidence.py:277-348 | the first answer that is not retried settles the batch; without one the last attempt does |
| `ClaimJudge.BatchBounds` | src/agenttracelab/claim_evidence.py:277-348 | at most max_attempts requests, at most 0.25*(2^(max_attempts-1)-1) seconds asleep, never more than three messages with the first two unchanged |
| `ClaimJudge.Judge` | src/agenttracelab/claim_evidence.py:203-227 | the batch loop over gradable claims is the recursive judgement, stopping at the first failed batch |
| `ClaimJudge.JudgeExactlyOnce` | src/agenttracelab/claim_evidence.py:203-227 | for every response sequence a normal return has every gradable claim exactly once after at least ceil(n/batch) requests, and every return makes at most ceil(n/batch)*max_attempts |
| `ClaimJudge.BatchesAreCeiling` | src/agenttracelab/claim_evidence.py:217-221 | the number of batches is the ceiling of n/batch |
| `ClaimJudge.MergeJudgesGradable` | src/agenttracelab/claim_evidence.py:566-580 | after the merge a gradable claim has its own verdict and any other keeps its deterministic one |
| `ClaimJudge.UnresolvedCitationOverruled` | src/agenttracelab/claim_evidence.py:566-580 | a claim with a citation that does not resolve ends as supported when the judge says so |
| `ClaimJudge.JudgedCount` | src/agenttracelab/claim_evidence.py:566-595 | the judged count equals the gradable count |

## Left out

- HTTP clients, routes, the command line, SQLite export, storage, OTLP wire decoding and report rendering: input and output only.
- Span resources, scopes, attributes and decision evidence of an OTLP trace: they travel with the span and do not affect its place.
- Trajectory case scoring (`_evaluate_case`) beyond ordered subset, duplicates and unrecovered failures: single comparisons.
- Readiness, promotion, policy and comparison gates: lists of single-branch reasons.
- WasmHatch, approval and commit rules: reported as not applicable, as they are for DeepResearch traces.
- The secret search runs over string leaves and keys as the serialized JSON text writes them, escapes included; that the text between strings (numbers, `true`, punctuation) matches no pattern is not proved.
- Free text of decision evidence (never empty and cut to size, so the trace schema accepts it), check summaries, limitations and error messages, and `repeated_failure_signatures`.
- A snapshot is taken in the canonical form its validation produces; the snapshot schema's own field checks are not repeated (those of the trace schema are modelled).
- Nested equality of JSON booleans and numbers: Python's `True == 1` is modelled at the top level only.
- Letters outside ASCII in the secret patterns: word boundaries and the case-insensitive match take letters as ASCII.
- `Domains.NormalizeAcceptsIff`: case folding is exact on ASCII letters and on the eleven other characters that fold to ASCII text; any further non-ASCII character of a stripped name gets it rejected folded or not, and which of the two rejections it gets is not modelled.
- Floating-point rounding of intermediate values, and the two-digit rounding of the evaluation score: reals are exact.
- `FaultInjection.InjectFault`: replaces records of a value, since the deep copy is not visible to any caller; nested dictionaries updated in place are modelled on the heap in `RequestObjects`.
- `RequestObjects.SetExistingPath`: dictionaries inside lists are values, because no path leads through a list.
- `RoundRobin.Select`: the buckets are a sequence in visiting order instead of a dictionary looked up by key.
- `ChallengeSet.BuildChallengeSet`: the categories, statuses and trial counts a cluster also reports are not modelled.
- `Regression.Compare`: the pairs carry their trials and score difference; pass rates, means, the latency ratio, trace freshness and the recommendation computed from them are not modelled.
- `BenchmarkScoring.RunRates`: token, latency, tool and page-fetch averages are not modelled.
- `ClaimJudge.JudgeExactlyOnce`: claim ids are distinct, as the generated ids are; claim segmentation, lexical overlap and the task-fulfillment judge are not modelled.
- `ClaimJudge.JudgeBatch`: the length of the rendered packet is a parameter, and a body is what it parses to.
- `PollRun.PollUntilTerminal`: the clock never runs backwards and a sleep lasts at least the interval.
