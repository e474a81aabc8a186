/** The ledger of observed and reused trace ids, threaded through a whole stability run. */
module FreshTraces {
  import opened Prelude
  import opened Rounding

  /** What replaying one task delivers: a trace with its score, or an error and no trace. */
  datatype TaskOutcome = Evaluated(traceId: string, score: real, safety: real) | Failed

  function IdsOf(results: seq<TaskOutcome>): seq<string> {
    if results == [] then []
    else (if results[0].Evaluated? then [results[0].traceId] else []) + IdsOf(results[1..])
  }

  function SumScores(results: seq<TaskOutcome>): real {
    if results == [] then 0.0
    else (if results[0].Evaluated? then results[0].score else 0.0) + SumScores(results[1..])
  }

  function Mean(sum: real, denominator: nat): real {
    if denominator == 0 then 0.0 else Round4(sum / denominator as real)
  }

  datatype Evaluation = Evaluation(traceIds: seq<string>, allFresh: bool, score: real)

  /** The mean is that of the scores, an error counting as zero, up to rounding. */
  lemma {:induction false} MeanOfScores(results: seq<TaskOutcome>, x: TaskOutcome)
    ensures SumScores(results + [x]) == SumScores(results) + (if x.Evaluated? then x.score else 0.0)
    ensures var n := |results| + 1;
            var exact := SumScores(results + [x]) / n as real;
            exact - 0.00005 <= Mean(SumScores(results + [x]), n) <= exact + 0.00005
    ensures Mean(SumScores([]), 0) == 0.0
  {
    SumSnoc(results, x);
    Round4Close(SumScores(results + [x]) / (|results| + 1) as real);
  }

  lemma {:induction false} SumSnoc(results: seq<TaskOutcome>, x: TaskOutcome)
    ensures SumScores(results + [x]) == SumScores(results) + (if x.Evaluated? then x.score else 0.0)
  {
    if results == [] {
      assert results + [x] == [x];
    } else {
      SumSnoc(results[1..], x);
      assert (results + [x])[1..] == results[1..] + [x];
    }
  }

  /** Ids are kept in the order of the tasks that gave one. */
  lemma {:induction false} IdsInOrder(results: seq<TaskOutcome>, x: TaskOutcome)
    ensures IdsOf(results + [x]) == IdsOf(results) + (if x.Evaluated? then [x.traceId] else [])
  {
    if results == [] {
      assert results + [x] == [x];
    } else {
      IdsInOrder(results[1..], x);
      assert (results + [x])[1..] == results[1..] + [x];
    }
  }

  /** Ids that repeat inside one evaluation or were seen before it. */
  function Duplicates(observed: set<string>, ids: seq<string>): set<string> {
    set id | id in ids && (id in observed || multiset(ids)[id] > 1)
  }

  /** The ledger a run should hold after producing `history`, starting from the training ids. */
  function ObservedIn(training: set<string>, history: seq<string>): set<string> {
    training + set id | id in history
  }

  /** Ids of `history` that were training ids or occur in it more than once. */
  function ReusedIn(training: set<string>, history: seq<string>): set<string> {
    set id | id in history && (id in training || multiset(history)[id] > 1)
  }

  lemma LedgerStep(training: set<string>, history: seq<string>, ids: seq<string>)
    ensures ObservedIn(training, history + ids) == ObservedIn(training, history) + set id | id in ids
    ensures ReusedIn(training, history + ids)
            == ReusedIn(training, history) + Duplicates(ObservedIn(training, history), ids)
  {
    assert multiset(history + ids) == multiset(history) + multiset(ids);
    assert forall id :: id in history + ids <==> id in history || id in ids;
    assert forall id :: id in history <==> multiset(history)[id] > 0;
    assert forall id :: id in ids <==> multiset(ids)[id] > 0;
  }

  /** The two mutable sets every evaluation of a run updates. */
  class Ledger {
    var observed: set<string>
    var reused: set<string>
    ghost const training: set<string>
    ghost var history: seq<string>

    ghost predicate Valid()
      reads this
    {
      observed == ObservedIn(training, history) && reused == ReusedIn(training, history)
    }

    constructor (trainingIds: set<string>)
      ensures Valid() && training == trainingIds && history == []
    {
      observed := trainingIds;
      reused := {};
      training := trainingIds;
      history := [];
    }

    /** `_evaluate_candidate`, given the outcomes of the replayed tasks. */
    method EvaluateCandidate(results: seq<TaskOutcome>) returns (e: Evaluation)
      requires Valid()
      modifies this
      ensures Valid() && history == old(history) + IdsOf(results)
      ensures observed == old(observed) + set id | id in IdsOf(results)
      ensures reused == old(reused) + Duplicates(old(observed), IdsOf(results))
      ensures e.traceIds == IdsOf(results)
      ensures e.allFresh <==> Duplicates(old(observed), IdsOf(results)) == {} && |IdsOf(results)| == |results|
      ensures e.score == if e.allFresh then Mean(SumScores(results), |results|) else 0.0
    {
      var traceIds := IdsOf(results);
      var duplicates := Duplicates(observed, traceIds);
      var allFresh := duplicates == {} && |traceIds| == |results|;
      observed := observed + set id | id in traceIds;
      reused := reused + duplicates;
      LedgerStep(training, history, traceIds);
      history := history + traceIds;
      var score := Mean(SumScores(results), |results|);
      if !allFresh {
        score := 0.0;
      }
      e := Evaluation(traceIds, allFresh, score);
    }
  }

  datatype Sample = Sample(task: nat, trial: nat, baseline: Evaluation, candidate: Evaluation)

  datatype StabilityRun = StabilityRun(samples: seq<Sample>, traceIds: seq<string>, reused: set<string>, freshTracePassed: bool)

  /** Ids produced by the first `n` evaluations. */
  function History(replays: nat -> TaskOutcome, n: nat): seq<string> {
    if n == 0 then [] else History(replays, n - 1) + IdsOf([replays(n - 1)])
  }

  /** Ids in report order: per sample the baseline's, then the candidate's. */
  function ReportedIds(samples: seq<Sample>): seq<string> {
    if samples == [] then []
    else
      var n := |samples| - 1;
      ReportedIds(samples[..n]) + samples[n].baseline.traceIds + samples[n].candidate.traceIds
  }

  /** Every evaluation produced one trace, all distinct and none seen in training. */
  ghost predicate AllFresh(training: set<string>, replays: nat -> TaskOutcome, n: nat) {
    && (forall i | 0 <= i < n :: replays(i).Evaluated? && replays(i).traceId !in training)
    && (forall i, j | 0 <= i < j < n :: replays(i).traceId != replays(j).traceId)
  }

  lemma {:induction false} HistoryMembers(replays: nat -> TaskOutcome, n: nat)
    ensures |History(replays, n)| <= n
    ensures |History(replays, n)| == n <==> forall i | 0 <= i < n :: replays(i).Evaluated?
    ensures forall id :: id in History(replays, n)
                         <==> exists i | 0 <= i < n :: replays(i) .Evaluated? && replays(i).traceId == id
  {
    if n > 0 {
      HistoryMembers(replays, n - 1);
      assert IdsOf([replays(n - 1)]) == if replays(n - 1).Evaluated? then [replays(n - 1).traceId] else [];
    }
  }

  lemma HistoryStep(replays: nat -> TaskOutcome, n: nat)
    requires n > 0
    ensures replays(n - 1).Evaluated? ==> History(replays, n) == History(replays, n - 1) + [replays(n - 1).traceId]
    ensures replays(n - 1).Failed? ==> History(replays, n) == History(replays, n - 1)
  {
    assert IdsOf([replays(n - 1)]) == if replays(n - 1).Evaluated? then [replays(n - 1).traceId] else [];
  }

  lemma HistoryLength(replays: nat -> TaskOutcome, n: nat)
    ensures |History(replays, n)| <= n
  {
    HistoryMembers(replays, n);
  }

  /** Nothing in `history` was a training id or occurred twice. */
  ghost predicate NothingReused(training: set<string>, history: seq<string>) {
    ReusedIn(training, history) == {}
  }

  lemma FreshStep(training: set<string>, history: seq<string>, id: string)
    ensures NothingReused(training, history + [id])
            <==> NothingReused(training, history) && id !in training && id !in history
  {
    LedgerStep(training, history, [id]);
    LastIsFresh(training, history, id);
  }

  lemma AllFreshStep(training: set<string>, replays: nat -> TaskOutcome, n: nat)
    requires n > 0
    ensures AllFresh(training, replays, n) <==>
              && AllFresh(training, replays, n - 1) && replays(n - 1).Evaluated?
              && replays(n - 1).traceId !in training && replays(n - 1).traceId !in History(replays, n - 1)
  {
    hide History;
    HistoryMembers(replays, n - 1);
  }

  lemma FreshAtStart(training: set<string>, replays: nat -> TaskOutcome)
    ensures NothingReused(training, History(replays, 0)) && |History(replays, 0)| == 0 && AllFresh(training, replays, 0)
  {
  }

  lemma {:induction false} FreshSoFar(training: set<string>, replays: nat -> TaskOutcome, n: nat)
    ensures NothingReused(training, History(replays, n)) && |History(replays, n)| == n <==> AllFresh(training, replays, n)
  {
    hide *;
    if n == 0 {
      FreshAtStart(training, replays);
    } else {
      FreshSoFar(training, replays, n - 1);
      HistoryLength(replays, n - 1);
      HistoryStep(replays, n);
      AllFreshStep(training, replays, n);
      if replays(n - 1).Evaluated? {
        FreshStep(training, History(replays, n - 1), replays(n - 1).traceId);
      }
    }
  }

  /** One id from each evaluation and nothing reused means every evaluation was fresh. */
  lemma FreshRunIff(training: set<string>, replays: nat -> TaskOutcome, n: nat)
    ensures ReusedIn(training, History(replays, n)) == {} && |History(replays, n)| == n
            <==> AllFresh(training, replays, n)
  {
    hide ReusedIn, History, AllFresh;
    FreshSoFar(training, replays, n);
  }

  lemma LastIsFresh(training: set<string>, before: seq<string>, id: string)
    ensures Duplicates(ObservedIn(training, before), [id]) == {} <==> id !in training && id !in before
  {
    var observed := ObservedIn(training, before);
    assert id in Duplicates(observed, [id]) <==> id in observed;
    assert forall x | x in Duplicates(observed, [id]) :: x == id;
  }

  /** Whether the baseline is evaluated before the candidate. */
  predicate BaselineFirst(task: nat, trial: nat) {
    (task + trial) % 2 == 1
  }

  lemma ParityDecides(task: nat, trial: nat)
    ensures BaselineFirst(task, trial) <==> task % 2 != trial % 2
  {
  }

  /** `e` is evaluation `i` of the run: fresh when it produced an id nobody produced before, else scored 0. */
  ghost predicate Reports(e: Evaluation, training: set<string>, replays: nat -> TaskOutcome, i: nat) {
    && e.traceIds == IdsOf([replays(i)])
    && (e.allFresh <==>
          replays(i).Evaluated? && replays(i).traceId !in training && replays(i).traceId !in History(replays, i))
    && e.score == if e.allFresh then Round4(replays(i).score) else 0.0
  }

  lemma OneScore(result: TaskOutcome)
    requires result.Evaluated?
    ensures Mean(SumScores([result]), 1) == Round4(result.score)
  {
    assert SumScores([result]) == result.score;
    assert result.score / 1 as real == result.score;
  }

  lemma EvaluationReports(e: Evaluation, training: set<string>, replays: nat -> TaskOutcome, i: nat)
    requires e.traceIds == IdsOf([replays(i)])
    requires e.allFresh <==>
               Duplicates(ObservedIn(training, History(replays, i)), e.traceIds) == {} && |e.traceIds| == 1
    requires e.score == if e.allFresh then Mean(SumScores([replays(i)]), 1) else 0.0
    ensures Reports(e, training, replays, i)
  {
    hide Round4;
    if replays(i).Evaluated? {
      OneScore(replays(i));
      assert e.traceIds == [replays(i).traceId];
      LastIsFresh(training, History(replays, i), replays(i).traceId);
    }
  }

  /** Sample `j` of the run, with the evaluations it reports: the baseline's replay comes first where task and trial
      numbers differ in parity, the candidate's where they agree. */
  ghost predicate SampleIs(s: Sample, training: set<string>, replays: nat -> TaskOutcome, trials: nat, j: nat) {
    var first := s.task % 2 != s.trial % 2;
    && 1 <= s.trial <= trials && j == s.task * trials + s.trial - 1
    && Reports(s.baseline, training, replays, if first then 2 * j else 2 * j + 1)
    && Reports(s.candidate, training, replays, if first then 2 * j + 1 else 2 * j)
  }

  /** One paired trial: two evaluations in alternating order. */
  method RunTrial(ledger: Ledger, replays: nat -> TaskOutcome, trials: nat, task: nat, trial: nat, j: nat)
    returns (sample: Sample)
    requires ledger.Valid() && ledger.history == History(replays, 2 * j)
    requires 1 <= trial <= trials && j == task * trials + trial - 1
    modifies ledger
    ensures ledger.Valid() && ledger.history == History(replays, 2 * j + 2)
    ensures sample.task == task && sample.trial == trial && SampleIs(sample, ledger.training, replays, trials, j)
    ensures |sample.baseline.traceIds| + |sample.candidate.traceIds|
            == |History(replays, 2 * j + 2)| - |History(replays, 2 * j)|
  {
    hide Reports, Mean, Duplicates, ObservedIn, ReusedIn, BaselineFirst;
    ParityDecides(task, trial);
    ghost var training := ledger.training;
    var baseline, candidate;
    if BaselineFirst(task, trial) {
      baseline := ledger.EvaluateCandidate([replays(2 * j)]);
      EvaluationReports(baseline, training, replays, 2 * j);
      candidate := ledger.EvaluateCandidate([replays(2 * j + 1)]);
      EvaluationReports(candidate, training, replays, 2 * j + 1);
    } else {
      candidate := ledger.EvaluateCandidate([replays(2 * j)]);
      EvaluationReports(candidate, training, replays, 2 * j);
      baseline := ledger.EvaluateCandidate([replays(2 * j + 1)]);
      EvaluationReports(baseline, training, replays, 2 * j + 1);
    }
    sample := Sample(task, trial, baseline, candidate);
  }

  /** The samples gathered so far account for everything the ledger has seen. */
  ghost predicate SoFar(training: set<string>, replays: nat -> TaskOutcome, trials: nat, samples: seq<Sample>,
                        history: seq<string>)
  {
    && history == History(replays, 2 * |samples|)
    && |ReportedIds(samples)| == |history|
    && forall j | 0 <= j < |samples| :: SampleIs(samples[j], training, replays, trials, j)
  }

  lemma SoFarStep(training: set<string>, replays: nat -> TaskOutcome, trials: nat, samples: seq<Sample>,
                  history: seq<string>, s: Sample, later: seq<string>)
    requires SoFar(training, replays, trials, samples, history) && SampleIs(s, training, replays, trials, |samples|)
    requires later == History(replays, 2 * |samples| + 2)
    requires |s.baseline.traceIds| + |s.candidate.traceIds| == |later| - |history|
    ensures SoFar(training, replays, trials, samples + [s], later)
  {
    hide SampleIs, History, ReportedIds;
    ReportedSnoc(samples, s);
  }

  lemma ReportedSnoc(samples: seq<Sample>, s: Sample)
    ensures ReportedIds(samples + [s]) == ReportedIds(samples) + s.baseline.traceIds + s.candidate.traceIds
  {
    assert (samples + [s])[..|samples|] == samples;
  }

  lemma NothingYet(training: set<string>, replays: nat -> TaskOutcome, trials: nat)
    ensures SoFar(training, replays, trials, [], [])
  {
  }

  /** The paired-trial loop and the freshness verdict. `replays(i)` is what the i-th replay delivers. */
  method RunStability(training: set<string>, tasks: nat, trials: nat, replays: nat -> TaskOutcome) returns (r: StabilityRun)
    ensures |r.samples| == tasks * trials
    ensures forall j | 0 <= j < |r.samples| :: SampleIs(r.samples[j], training, replays, trials, j)
    ensures r.traceIds == ReportedIds(r.samples)
    ensures r.reused == ReusedIn(training, History(replays, 2 * (tasks * trials)))
    ensures r.freshTracePassed <==> AllFresh(training, replays, 2 * (tasks * trials))
  {
    hide SampleIs, History, ReusedIn, AllFresh, ReportedIds, Reports, BaselineFirst;
    var ledger := new Ledger(training);
    var samples: seq<Sample> := [];
    NothingYet(training, replays, trials);
    for task := 0 to tasks
      invariant ledger.Valid() && fresh(ledger) && ledger.training == training
      invariant |samples| == task * trials && SoFar(training, replays, trials, samples, ledger.history)
    {
      for trial := 1 to trials + 1
        invariant ledger.Valid() && fresh(ledger) && ledger.training == training
        invariant |samples| == task * trials + trial - 1 && SoFar(training, replays, trials, samples, ledger.history)
      {
        var j := |samples|;
        ghost var history := ledger.history;
        var sample := RunTrial(ledger, replays, trials, task, trial, j);
        SoFarStep(training, replays, trials, samples, history, sample, ledger.history);
        samples := samples + [sample];
      }
      NextTask(task, trials);
    }
    var traceIds := ReportedIds(samples);
    var passed := ledger.reused == {} && |traceIds| == 2 * |samples|;
    FreshRunIff(training, replays, 2 * |samples|);
    r := StabilityRun(samples, traceIds, ledger.reused, passed);
  }

  lemma NextTask(task: nat, trials: nat)
    ensures task * trials + trials == (task + 1) * trials
  {
  }
}
