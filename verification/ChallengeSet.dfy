/** The challenge set built from failed benchmark trials: clusters by failure signature, tasks under two caps. */
module ChallengeSet {
  import opened Counting
  import opened Prelude
  import opened Grouping
  import opened Ordering

  datatype Trial = Trial(taskId: string, runStatus: string, claimRecommendation: Option<string>, passed: bool,
                         failureCategories: seq<string>, score: Option<real>)

  datatype Policy = Policy(maxTasks: nat, maxTasksPerCluster: nat) {
    ghost predicate Valid() {
      maxTasks > 0 && maxTasksPerCluster > 0
    }
  }

  /** The categories whose appearance is a safety failure. */
  const SAFETY_FAILURES: set<string> := {
    "privacy.no_raw_secret",
    "deepresearch.source_isolation",
    "deepresearch.checkpoints_intact",
    "deepresearch.required_contracts_pass"
  }

  // ----- Signatures -----

  function NonEmptyParts(parts: seq<string>): seq<string> {
    if parts == [] then [] else (if parts[0] != "" then [parts[0]] else []) + NonEmptyParts(parts[1..])
  }

  function Parts(t: Trial): seq<string> {
    var status := if t.runStatus != "completed" then t.runStatus else "";
    var claim := if t.claimRecommendation == Some("hold") then "claim:hold" else "";
    NonEmptyParts([status, claim] + SortBy(t.failureCategories, StrLe))
  }

  /** The failure signature of a trial; `None` for a clean pass. */
  function Signature(t: Trial): Option<string> {
    var parts := Parts(t);
    if parts == [] && t.passed then None
    else if parts == [] then Some("evaluation_failed_without_category")
    else Some(Join(parts))
  }

  predicate AllEmpty(parts: seq<string>) {
    forall p | p in parts :: p == ""
  }

  lemma {:induction false} NothingNonEmpty(parts: seq<string>)
    ensures NonEmptyParts(parts) == [] <==> AllEmpty(parts)
  {
    if parts != [] {
      NothingNonEmpty(parts[1..]);
      assert parts == [parts[0]] + parts[1..];
      assert parts[0] in parts && forall p | p in parts[1..] :: p in parts;
    }
  }

  /** Only a passed, completed trial that no check and no claim review faults goes unclustered; one that only failed has
      a signature of its own. */
  lemma UnsignedIff(t: Trial)
    ensures Signature(t).None? <==>
              && t.passed
              && (t.runStatus == "completed" || t.runStatus == "")
              && t.claimRecommendation != Some("hold")
              && AllEmpty(t.failureCategories)
    ensures !t.passed && (t.runStatus == "completed" || t.runStatus == "") && t.claimRecommendation != Some("hold")
            && AllEmpty(t.failureCategories) ==>
              Signature(t) == Some("evaluation_failed_without_category")
  {
    var sorted := SortBy(t.failureCategories, StrLe);
    PermutationFacts(sorted, t.failureCategories);
    assert AllEmpty(sorted) <==> AllEmpty(t.failureCategories);
    hide SortBy, StrLe, NonEmptyParts, Join, AllEmpty;
    var status := if t.runStatus != "completed" then t.runStatus else "";
    var claim := if t.claimRecommendation == Some("hold") then "claim:hold" else "";
    NothingNonEmpty([status, claim] + sorted);
    EmptyTwo(status, claim, sorted);
  }

  lemma EmptyTwo(a: string, b: string, rest: seq<string>)
    ensures AllEmpty([a, b] + rest) <==> a == "" && b == "" && AllEmpty(rest)
  {
    var all := [a, b] + rest;
    assert all[0] == a && all[1] == b && all[2..] == rest;
    assert all[0] in all && all[1] in all;
    assert forall p :: p in all <==> p == a || p == b || p in rest;
  }

  /** The signature does not depend on the order of the failure categories. */
  lemma SignatureIgnoresOrder(t: Trial, u: Trial)
    requires multiset(t.failureCategories) == multiset(u.failureCategories)
    requires u == t.(failureCategories := u.failureCategories)
    ensures Signature(t) == Signature(u)
  {
    SameSort(t.failureCategories, u.failureCategories);
  }

  // ----- Clusters -----

  function Failing(trials: seq<Trial>): seq<Trial> {
    if trials == [] then []
    else (if Signature(trials[0]).Some? then [trials[0]] else []) + Failing(trials[1..])
  }

  /** The signature as a grouping key; only used on failing trials. */
  function SignatureKey(t: Trial): string {
    match Signature(t)
    case Some(s) => s
    case None => ""
  }

  predicate Unsafe(t: Trial) {
    exists c | c in t.failureCategories :: c in SAFETY_FAILURES
  }

  function UnsafeCount(trials: seq<Trial>): nat {
    if trials == [] then 0 else (if Unsafe(trials[0]) then 1 else 0) + UnsafeCount(trials[1..])
  }

  function Cluster(failing: seq<Trial>, signature: string): seq<Trial> {
    Tagged(failing, SignatureKey, signature)
  }

  /** The sort key `(-safety failures, -size, signature)`. */
  predicate ClusterLe(failing: seq<Trial>, a: string, b: string) {
    var p, q := UnsafeCount(Cluster(failing, a)), UnsafeCount(Cluster(failing, b));
    var m, n := |Cluster(failing, a)|, |Cluster(failing, b)|;
    p > q || (p == q && (m > n || (m == n && StrLe(a, b))))
  }

  function ClusterOrder(failing: seq<Trial>): seq<string> {
    SortBy(Distinct(Keys(failing, SignatureKey)), (a, b) => ClusterLe(failing, a, b))
  }

  function TaskIds(trials: seq<Trial>): seq<string> {
    Distinct(seq(|trials|, i requires 0 <= i < |trials| => trials[i].taskId))
  }

  // ----- Choosing tasks -----

  function Take<T>(s: seq<T>, n: nat): (r: seq<T>)
    ensures r <= s && |r| == if n <= |s| then n else |s|
  {
    if n <= |s| then s[..n] else s
  }

  function Without(ids: seq<string>, selected: seq<string>): (rest: seq<string>)
    ensures forall id :: id in rest <==> id in ids && id !in selected
  {
    if ids == [] then []
    else
      assert ids == [ids[0]] + ids[1..];
      (if ids[0] in selected then [] else [ids[0]]) + Without(ids[1..], selected)
  }

  /** A cluster gives its first tasks not selected yet, up to its cap and the budget that remains. */
  function Chosen(ids: seq<string>, selected: seq<string>, policy: Policy): seq<string>
    requires |selected| <= policy.maxTasks
  {
    Take(Take(Without(ids, selected), policy.maxTasksPerCluster), policy.maxTasks - |selected|)
  }

  /** What each visited cluster gives, in order; clusters after the budget is spent are not visited. */
  function Choices(clusters: seq<seq<string>>, selected: seq<string>, policy: Policy): seq<seq<string>>
    requires |selected| < policy.maxTasks
  {
    if clusters == [] then []
    else
      var chosen := Chosen(clusters[0], selected, policy);
      if |selected + chosen| >= policy.maxTasks then [chosen]
      else [chosen] + Choices(clusters[1..], selected + chosen, policy)
  }

  function Concat(lists: seq<seq<string>>): seq<string> {
    if lists == [] then [] else lists[0] + Concat(lists[1..])
  }

  /** The selection loop: every visited cluster extends the selection, until the budget is spent. */
  method SelectTasks(clusters: seq<seq<string>>, policy: Policy) returns (selected: seq<string>, choices: seq<seq<string>>)
    requires policy.Valid()
    ensures choices == Choices(clusters, [], policy) && selected == Concat(choices)
  {
    selected, choices := [], [];
    assert Visited(clusters, 0, policy, selected, choices);
    hide Visited, Choices, Concat, Without;
    for i := 0 to |clusters|
      invariant |selected| < policy.maxTasks && Visited(clusters, i, policy, selected, choices)
    {
      var chosen := Take(Without(clusters[i], selected), policy.maxTasksPerCluster);
      var remaining := policy.maxTasks - |selected|;
      chosen := Take(chosen, remaining);
      VisitNext(clusters, i, policy, selected, choices, chosen);
      selected, choices := selected + chosen, choices + [chosen];
      if |selected| >= policy.maxTasks {
        return;
      }
    }
    AllVisited(clusters, policy, selected, choices);
  }

  lemma AllVisited(clusters: seq<seq<string>>, policy: Policy, selected: seq<string>, choices: seq<seq<string>>)
    requires Visited(clusters, |clusters|, policy, selected, choices)
    ensures policy.maxTasks > 0 && choices == Choices(clusters, [], policy) && selected == Concat(choices)
  {
  }

  ghost predicate Visited(clusters: seq<seq<string>>, i: nat, policy: Policy, selected: seq<string>, choices: seq<seq<string>>) {
    && i <= |clusters| && |selected| < policy.maxTasks && selected == Concat(choices)
    && Choices(clusters, [], policy) == choices + Choices(clusters[i..], selected, policy)
  }

  lemma VisitNext(clusters: seq<seq<string>>, i: nat, policy: Policy, selected: seq<string>, choices: seq<seq<string>>,
                  chosen: seq<string>)
    requires i < |clusters| && Visited(clusters, i, policy, selected, choices)
    requires chosen == Take(Take(Without(clusters[i], selected), policy.maxTasksPerCluster), policy.maxTasks - |selected|)
    ensures selected + chosen == Concat(choices + [chosen])
    ensures if |selected + chosen| >= policy.maxTasks then Choices(clusters, [], policy) == choices + [chosen]
            else Visited(clusters, i + 1, policy, selected + chosen, choices + [chosen])
  {
    hide Choices, Concat, Chosen, Take, Without;
    ConcatSnoc(choices, chosen);
    ChoicesFrom(clusters, i, selected, chosen, policy);
    if |selected + chosen| < policy.maxTasks {
      Associative(choices, [chosen], Choices(clusters[i + 1..], selected + chosen, policy));
    }
  }

  lemma ChoicesFrom(clusters: seq<seq<string>>, i: nat, selected: seq<string>, chosen: seq<string>, policy: Policy)
    requires i < |clusters| && |selected| < policy.maxTasks
    requires chosen == Take(Take(Without(clusters[i], selected), policy.maxTasksPerCluster), policy.maxTasks - |selected|)
    ensures Choices(clusters[i..], selected, policy)
            == if |selected + chosen| >= policy.maxTasks then [chosen]
               else [chosen] + Choices(clusters[i + 1..], selected + chosen, policy)
  {
    assert clusters[i..][0] == clusters[i] && clusters[i..][1..] == clusters[i + 1..];
    assert chosen == Chosen(clusters[i], selected, policy);
    hide Take, Without, Chosen;
  }

  lemma {:induction false} ConcatSnoc(lists: seq<seq<string>>, last: seq<string>)
    ensures Concat(lists + [last]) == Concat(lists) + last
  {
    if lists != [] {
      ConcatSnoc(lists[1..], last);
      assert (lists + [last])[1..] == lists[1..] + [last];
    }
  }

  // ----- What the selection guarantees -----

  /** No task is chosen twice, and the whole selection fits the budget. */
  lemma {:induction false} ChoicesDistinct(clusters: seq<seq<string>>, selected: seq<string>, policy: Policy)
    requires |selected| < policy.maxTasks && AllDistinct(selected) && forall c | c in clusters :: AllDistinct(c)
    ensures var choices := Choices(clusters, selected, policy);
            AllDistinct(selected + Concat(choices)) && |selected + Concat(choices)| <= policy.maxTasks
  {
    assert selected + Concat([]) == selected;
    if clusters != [] {
      hide Chosen, AllDistinct, ChoiceWithin, Concat;
      var chosen := Chosen(clusters[0], selected, policy);
      ChosenWithin(clusters[0], selected, policy);
      if |selected + chosen| >= policy.maxTasks {
        ConcatCons(selected, chosen, []);
        NothingConcat(selected + chosen);
      } else {
        ChoicesDistinct(clusters[1..], selected + chosen, policy);
        ConcatCons(selected, chosen, Choices(clusters[1..], selected + chosen, policy));
      }
    }
  }

  /** Every choice comes from its own cluster and keeps within the cluster's cap. */
  lemma {:induction false} ChoicesWithinCaps(clusters: seq<seq<string>>, selected: seq<string>, policy: Policy, i: nat)
    requires |selected| < policy.maxTasks && AllDistinct(selected) && forall c | c in clusters :: AllDistinct(c)
    requires i < |Choices(clusters, selected, policy)|
    ensures i < |clusters| && ChoiceWithin(Choices(clusters, selected, policy)[i], clusters[i], policy)
  {
    hide Chosen, AllDistinct, ChoiceWithin;
    var chosen := Chosen(clusters[0], selected, policy);
    ChosenWithin(clusters[0], selected, policy);
    if |selected + chosen| < policy.maxTasks && i > 0 {
      ChoicesWithinCaps(clusters[1..], selected + chosen, policy, i - 1);
    }
  }

  lemma NothingConcat(s: seq<string>)
    ensures s + Concat([]) == s
  {
  }

  predicate ChoiceWithin(choice: seq<string>, cluster: seq<string>, policy: Policy) {
    |choice| <= policy.maxTasksPerCluster && forall id | id in choice :: id in cluster
  }

  lemma ChosenWithin(ids: seq<string>, selected: seq<string>, policy: Policy)
    requires |selected| <= policy.maxTasks && AllDistinct(ids) && AllDistinct(selected)
    ensures var chosen := Chosen(ids, selected, policy);
            ChoiceWithin(chosen, ids, policy) && AllDistinct(selected + chosen) && |selected + chosen| <= policy.maxTasks
  {
    hide Without;
    WithoutDistinct(ids, selected);
    var chosen, rest := Chosen(ids, selected, policy), Without(ids, selected);
    assert chosen <= rest;
    assert forall i | 0 <= i < |chosen| :: chosen[i] == rest[i] && chosen[i] in rest;
  }

  lemma {:induction false} WithoutDistinct(ids: seq<string>, selected: seq<string>)
    requires AllDistinct(ids)
    ensures AllDistinct(Without(ids, selected))
  {
    if ids != [] {
      WithoutDistinct(ids[1..], selected);
      assert forall id | id in Without(ids[1..], selected) :: id in ids[1..];
      assert ids[0] !in ids[1..];
    }
  }

  /** With budget left, every cluster has been visited. */
  lemma {:induction false} EveryClusterVisited(clusters: seq<seq<string>>, selected: seq<string>, policy: Policy)
    requires |selected| < policy.maxTasks
    ensures var choices := Choices(clusters, selected, policy);
            |choices| <= |clusters| && (|selected + Concat(choices)| < policy.maxTasks ==> |choices| == |clusters|)
  {
    if clusters != [] {
      hide Chosen;
      var chosen := Chosen(clusters[0], selected, policy);
      if |selected + chosen| < policy.maxTasks {
        EveryClusterVisited(clusters[1..], selected + chosen, policy);
        ConcatCons(selected, chosen, Choices(clusters[1..], selected + chosen, policy));
      } else {
        ConcatCons(selected, chosen, []);
      }
    }
  }

  lemma ConcatCons(before: seq<string>, first: seq<string>, rest: seq<seq<string>>)
    ensures before + Concat([first] + rest) == (before + first) + Concat(rest)
  {
    assert ([first] + rest)[1..] == rest;
  }

  /** A visited cluster passes over a task only at its cap or because the budget is spent on it. */
  lemma {:induction false} ChoicesMaximal(clusters: seq<seq<string>>, selected: seq<string>, policy: Policy, i: nat, id: string)
    requires |selected| < policy.maxTasks && i < |Choices(clusters, selected, policy)| <= |clusters|
    requires id in clusters[i] && id !in selected + Concat(Choices(clusters, selected, policy))
    ensures var choices := Choices(clusters, selected, policy);
            || |choices[i]| == policy.maxTasksPerCluster
            || (i == |choices| - 1 && |selected + Concat(choices)| == policy.maxTasks)
  {
    hide Chosen;
    var chosen := Chosen(clusters[0], selected, policy);
    if |selected + chosen| >= policy.maxTasks {
      ConcatCons(selected, chosen, []);
      ChosenMaximal(clusters[0], selected, policy, id);
    } else {
      var rest := Choices(clusters[1..], selected + chosen, policy);
      ConcatCons(selected, chosen, rest);
      EveryClusterVisited(clusters[1..], selected + chosen, policy);
      if i > 0 {
        ChoicesMaximal(clusters[1..], selected + chosen, policy, i - 1, id);
      } else {
        assert id !in selected + chosen;
        ChosenMaximal(clusters[0], selected, policy, id);
      }
    }
  }

  lemma ChosenMaximal(ids: seq<string>, selected: seq<string>, policy: Policy, id: string)
    requires |selected| < policy.maxTasks && id in ids && id !in selected + Chosen(ids, selected, policy)
    ensures var chosen := Chosen(ids, selected, policy);
            |chosen| == policy.maxTasksPerCluster || |selected + chosen| == policy.maxTasks
    ensures |selected + Chosen(ids, selected, policy)| <= policy.maxTasks
  {
    hide Without;
    var rest, chosen := Without(ids, selected), Chosen(ids, selected, policy);
    assert |chosen| == |rest| ==> chosen == rest;
  }

  // ----- The report -----

  datatype ClusterReport = ClusterReport(signature: string, taskIds: seq<string>, chosen: seq<string>)

  datatype Challenge = Challenge(selected: seq<string>, usedSentinel: bool, clusters: seq<ClusterReport>, tasks: seq<string>)

  datatype ChallengeError = NoTaskResolved

  /** The lowest score any trial of a task got; -1 for a missing score, and with no trial at all. */
  function Rank(trials: seq<Trial>, taskId: string): real {
    if trials == [] then -1.0
    else if trials[0].taskId != taskId then Rank(trials[1..], taskId)
    else
      var score := if trials[0].score.Some? then trials[0].score.value else -1.0;
      if exists t | t in trials[1..] :: t.taskId == taskId then
        var rest := Rank(trials[1..], taskId);
        if rest < score then rest else score
      else score
  }

  predicate RankLe(trials: seq<Trial>, a: string, b: string) {
    Rank(trials, a) <= Rank(trials, b)
  }

  function Sentinel(trials: seq<Trial>, tasks: seq<string>): string
    requires tasks != []
  {
    SortBy(tasks, (a, b) => RankLe(trials, a, b))[0]
  }

  /** Position `i` holds a least element, and no earlier position does. */
  ghost predicate FirstLeast<T(!new)>(s: seq<T>, le: (T, T) -> bool, i: nat) {
    && i < |s|
    && (forall k | 0 <= k < |s| :: le(s[i], s[k]))
    && (forall k | 0 <= k < i :: !le(s[k], s[i]))
  }

  /** Stable sorting puts the first of the lowest in front. */
  lemma {:induction false} FirstOfLowest<T(!new)>(s: seq<T>, le: (T, T) -> bool) returns (i: nat)
    requires s != [] && TotalPreorder(le)
    ensures FirstLeast(s, le, i) && SortBy(s, le)[0] == s[i]
  {
    if |s| == 1 {
      assert SortBy(s[1..], le) == [];
      i := 0;
    } else {
      i := FirstOfLowest(s[1..], le);
      var first := s[1..][i];
      assert SortBy(s, le) == Insert(s[0], SortBy(s[1..], le), le);
      hide TotalPreorder, SortBy;
      LeastMoves(s, le, i);
      i := if le(s[0], first) then 0 else i + 1;
    }
  }

  lemma LeastMoves<T(!new)>(s: seq<T>, le: (T, T) -> bool, i: nat)
    requires |s| > 1 && TotalPreorder(le) && FirstLeast(s[1..], le, i)
    ensures FirstLeast(s, le, if le(s[0], s[1..][i]) then 0 else i + 1)
  {
    var least := s[1..][i];
    forall k | 1 <= k < |s| ensures le(least, s[k]) && (k < i + 1 ==> !le(s[k], least)) {
      assert s[k] == s[1..][k - 1];
    }
  }

  function TaskIdsOf(failing: seq<Trial>, order: seq<string>): (ids: seq<seq<string>>)
    ensures |ids| == |order|
  {
    seq(|order|, i requires 0 <= i < |order| => TaskIds(Cluster(failing, order[i])))
  }

  function ClusterReports(order: seq<string>, clusters: seq<seq<string>>, choices: seq<seq<string>>): seq<ClusterReport>
    requires |choices| <= |clusters| == |order|
  {
    seq(|choices|, i requires 0 <= i < |choices| => ClusterReport(order[i], clusters[i], choices[i]))
  }

  /** The selected ids that the source manifest knows. */
  function Resolve(ids: seq<string>, tasks: seq<string>): (known: seq<string>)
    ensures forall id :: id in known <==> id in ids && id in tasks
  {
    if ids == [] then []
    else
      assert ids == [ids[0]] + ids[1..];
      (if ids[0] in tasks then [ids[0]] else []) + Resolve(ids[1..], tasks)
  }

  method BuildChallengeSet(tasks: seq<string>, trials: seq<Trial>, policy: Policy) returns (r: Result<Challenge, ChallengeError>)
    requires policy.Valid() && tasks != []
    ensures r.Ok? ==> ChallengeFrom(tasks, trials, policy, r.value)
    ensures r.Err? ==> forall id | id in SelectionFor(tasks, trials, policy) :: id !in tasks
  {
    assert policy.maxTasks > 0;
    hide *;
    var failing := Failing(trials);
    var groups, keys := FillGroups(failing, SignatureKey);
    var order := SortBy(keys, (a, b) => ClusterLe(failing, a, b));
    var clusters := TaskIdsOf(failing, order);
    var selected, choices := SelectTasks(clusters, policy);
    EveryClusterVisited(clusters, [], policy);
    OrderOfKeys(failing);
    var reports := ClusterReports(order, clusters, choices);
    var usedSentinel := keys == [];
    NoGroups(failing);
    if usedSentinel {
      var sentinel := Sentinel(trials, tasks);
      selected := [sentinel];
      reports := [SentinelReport([sentinel])];
    }
    var resolved := Resolve(selected, tasks);
    Selects(tasks, trials, policy, selected);
    if resolved == [] {
      return Err(NoTaskResolved);
    }
    r := Ok(Challenge(selected, usedSentinel, reports, resolved));
    Reports(tasks, trials, policy, r.value, choices);
  }

  /** The selected ids, as a function of the inputs. */
  function SelectionFor(tasks: seq<string>, trials: seq<Trial>, policy: Policy): seq<string>
    requires policy.Valid() && tasks != []
  {
    var failing := Failing(trials);
    if failing == [] then [Sentinel(trials, tasks)]
    else Concat(Choices(TaskIdsOf(failing, ClusterOrder(failing)), [], policy))
  }

  lemma OrderOfKeys(failing: seq<Trial>)
    ensures ClusterOrder(failing) == SortBy(Distinct(Keys(failing, SignatureKey)), (a, b) => ClusterLe(failing, a, b))
    ensures forall k | k in Keys(failing, SignatureKey) :: k in ClusterOrder(failing)
  {
    PermutationFacts(ClusterOrder(failing), Distinct(Keys(failing, SignatureKey)));
  }

  lemma Selects(tasks: seq<string>, trials: seq<Trial>, policy: Policy, selected: seq<string>)
    requires policy.Valid() && tasks != []
    requires var failing := Failing(trials);
             selected == if failing == [] then [Sentinel(trials, tasks)]
                         else Concat(Choices(TaskIdsOf(failing, ClusterOrder(failing)), [], policy))
    ensures selected == SelectionFor(tasks, trials, policy)
  {
  }

  lemma Reports(tasks: seq<string>, trials: seq<Trial>, policy: Policy, c: Challenge, choices: seq<seq<string>>)
    requires policy.Valid() && tasks != [] && c.selected == SelectionFor(tasks, trials, policy)
    requires c.usedSentinel <==> Failing(trials) == []
    requires c.tasks == Resolve(c.selected, tasks) && c.tasks != []
    requires var order := ClusterOrder(Failing(trials)); var lists := TaskIdsOf(Failing(trials), order);
             && choices == Choices(lists, [], policy) && |choices| <= |lists|
             && c.clusters == if c.usedSentinel then [SentinelReport(c.selected)] else ClusterReports(order, lists, choices)
    ensures ChallengeFrom(tasks, trials, policy, c)
  {
    hide Choices, ClusterOrder, Cluster, TaskIds, SelectionFor, Resolve, Failing;
  }

  function SentinelReport(selected: seq<string>): ClusterReport {
    ClusterReport("sentinel.no_observed_failure", selected, selected)
  }

  lemma NoGroups(failing: seq<Trial>)
    ensures Distinct(Keys(failing, SignatureKey)) == [] <==> failing == []
  {
    if failing != [] {
      assert Keys(failing, SignatureKey)[0] in Distinct(Keys(failing, SignatureKey));
    }
  }

  /** The report's fields, as functions of the inputs. */
  ghost predicate ChallengeFrom(tasks: seq<string>, trials: seq<Trial>, policy: Policy, c: Challenge) {
    && policy.Valid() && tasks != []
    && c.selected == SelectionFor(tasks, trials, policy)
    && (c.usedSentinel <==> Failing(trials) == [])
    && c.tasks == Resolve(c.selected, tasks) && c.tasks != []
    && if c.usedSentinel then c.clusters == [SentinelReport(c.selected)]
       else ClustersFrom(Failing(trials), policy, c.clusters)
  }

  ghost predicate ClustersFrom(failing: seq<Trial>, policy: Policy, clusters: seq<ClusterReport>)
    requires policy.Valid()
  {
    var order := ClusterOrder(failing);
    var choices := Choices(TaskIdsOf(failing, order), [], policy);
    && |clusters| == |choices| <= |order|
    && forall i | 0 <= i < |choices| ::
         clusters[i] == ClusterReport(order[i], TaskIds(Cluster(failing, order[i])), choices[i])
  }

  // ----- What a challenge set guarantees -----

  /** What each reported cluster chose. */
  function ChosenBy(clusters: seq<ClusterReport>): seq<seq<string>> {
    seq(|clusters|, i requires 0 <= i < |clusters| => clusters[i].chosen)
  }

  lemma TaskListsDistinct(failing: seq<Trial>, order: seq<string>)
    ensures forall ids | ids in TaskIdsOf(failing, order) :: AllDistinct(ids)
  {
  }

  lemma TaskIdsAt(failing: seq<Trial>, order: seq<string>, i: nat)
    requires i < |order|
    ensures TaskIdsOf(failing, order)[i] == TaskIds(Cluster(failing, order[i]))
  {
  }

  /** No duplicate task, both caps, and (with failures) the selection is what the clusters chose. */
  lemma ChallengeWithinCaps(tasks: seq<string>, trials: seq<Trial>, policy: Policy, c: Challenge)
    requires ChallengeFrom(tasks, trials, policy, c)
    ensures AllDistinct(c.selected) && |c.selected| <= policy.maxTasks
    ensures !c.usedSentinel ==>
              && c.selected == Concat(ChosenBy(c.clusters))
              && forall k | k in c.clusters :: ChoiceWithin(k.chosen, k.taskIds, policy)
  {
    hide *;
    ChallengeMeans(tasks, trials, policy, c);
    ShortIsDistinct<string>([]);
    if c.usedSentinel {
      ShortIsDistinct(c.selected);
    } else {
      var failing := Failing(trials);
      var lists := TaskIdsOf(failing, ClusterOrder(failing));
      TaskListsDistinct(failing, ClusterOrder(failing));
      ChoicesDistinct(lists, [], policy);
      assert [] + c.selected == c.selected;
      ClustersChosen(failing, policy, c.clusters);
      ClustersWithinCaps(failing, policy, c.clusters);
    }
  }

  lemma ShortIsDistinct<T>(s: seq<T>)
    requires |s| <= 1
    ensures AllDistinct(s)
  {
  }

  /** The selection is the sentinel's task, or what the clusters chose. */
  lemma ChallengeMeans(tasks: seq<string>, trials: seq<Trial>, policy: Policy, c: Challenge)
    requires ChallengeFrom(tasks, trials, policy, c)
    ensures policy.Valid() && policy.maxTasks > 0
    ensures c.usedSentinel ==> |c.selected| == 1
    ensures !c.usedSentinel ==>
              && c.selected == Concat(Choices(TaskIdsOf(Failing(trials), ClusterOrder(Failing(trials))), [], policy))
              && ClustersFrom(Failing(trials), policy, c.clusters)
  {
    hide Choices, Concat, ClusterOrder, Cluster, TaskIds, Resolve, Failing, TaskIdsOf, Sentinel, ClustersFrom;
  }

  lemma ClustersChosen(failing: seq<Trial>, policy: Policy, clusters: seq<ClusterReport>)
    requires policy.Valid() && ClustersFrom(failing, policy, clusters)
    ensures Choices(TaskIdsOf(failing, ClusterOrder(failing)), [], policy)
            == ChosenBy(clusters)
  {
    hide Choices, ClusterOrder, Cluster, TaskIds, TaskIdsOf;
  }

  lemma ClustersWithinCaps(failing: seq<Trial>, policy: Policy, clusters: seq<ClusterReport>)
    requires policy.Valid() && ClustersFrom(failing, policy, clusters)
    ensures forall k | k in clusters :: ChoiceWithin(k.chosen, k.taskIds, policy)
  {
    hide Choices, ClusterOrder, Cluster, TaskIds, ChoiceWithin, TaskIdsOf;
    TaskListsDistinct(failing, ClusterOrder(failing));
    forall i | 0 <= i < |clusters| ensures ChoiceWithin(clusters[i].chosen, clusters[i].taskIds, policy) {
      ChoicesWithinCaps(TaskIdsOf(failing, ClusterOrder(failing)), [], policy, i);
      TaskIdsAt(failing, ClusterOrder(failing), i);
    }
  }

  /** With budget left, a failing task is missing only if every cluster it is in hit its cap. */
  lemma ChallengeMaximal(tasks: seq<string>, trials: seq<Trial>, policy: Policy, c: Challenge, t: Trial)
    requires ChallengeFrom(tasks, trials, policy, c) && |c.selected| < policy.maxTasks
    requires t in Failing(trials) && t.taskId !in c.selected
    ensures forall u | u in Failing(trials) && u.taskId == t.taskId ::
              exists i :: 0 <= i < |c.clusters| && c.clusters[i].signature == SignatureKey(u)
                          && |c.clusters[i].chosen| == policy.maxTasksPerCluster
  {
    hide Choices, Concat, ClusterOrder, Cluster, TaskIds, TaskIdsOf, Resolve, Failing, SignatureKey;
    var failing := Failing(trials);
    var order := ClusterOrder(failing);
    var lists := TaskIdsOf(failing, order);
    var choices := Choices(lists, [], policy);
    assert [] + Concat(choices) == Concat(choices);
    EveryClusterVisited(lists, [], policy);
    forall u | u in failing && u.taskId == t.taskId
      ensures exists i :: 0 <= i < |c.clusters| && c.clusters[i].signature == SignatureKey(u)
                          && |c.clusters[i].chosen| == policy.maxTasksPerCluster
    {
      var i := ClusterOf(failing, u);
      ChoicesMaximal(lists, [], policy, i, t.taskId);
      assert c.clusters[i].signature == SignatureKey(u);
    }
  }

  /** A failing trial stands in the cluster of its signature. */
  lemma ClusterOf(failing: seq<Trial>, u: Trial) returns (i: nat)
    requires u in failing
    ensures i < |ClusterOrder(failing)| && ClusterOrder(failing)[i] == SignatureKey(u)
    ensures u.taskId in TaskIdsOf(failing, ClusterOrder(failing))[i]
  {
    hide *;
    var order := ClusterOrder(failing);
    var x :| 0 <= x < |failing| && failing[x] == u;
    TaggedHolds(failing, SignatureKey, x);
    KeyAt(failing, SignatureKey, x);
    OrderOfKeys(failing);
    i :| 0 <= i < |order| && order[i] == SignatureKey(u);
    ClusterIs(failing, order[i]);
    var cluster := Cluster(failing, order[i]);
    var y :| 0 <= y < |cluster| && cluster[y] == u;
    HoldsTaskId(cluster, y);
    TaskIdsAt(failing, order, i);
  }

  lemma ClusterIs(failing: seq<Trial>, signature: string)
    ensures Cluster(failing, signature) == Tagged(failing, SignatureKey, signature)
  {
  }

  lemma HoldsTaskId(trials: seq<Trial>, y: nat)
    requires y < |trials|
    ensures trials[y].taskId in TaskIds(trials)
  {
    var ids := seq(|trials|, i requires 0 <= i < |trials| => trials[i].taskId);
    assert ids[y] in Distinct(ids);
  }

  /** A cluster lists its tasks in the order of their first trials in it. */
  lemma TasksByFirstTrial(trials: seq<Trial>, i: nat, j: nat, y: nat)
    requires i < j < |TaskIds(trials)| && y < |trials| && trials[y].taskId == TaskIds(trials)[j]
    ensures exists x | 0 <= x < y :: trials[x].taskId == TaskIds(trials)[i]
  {
    var ids := seq(|trials|, i requires 0 <= i < |trials| => trials[i].taskId);
    DistinctByFirstUse(ids, i, j, y);
    var x :| 0 <= x < y && ids[x] == Distinct(ids)[i];
    assert trials[x].taskId == ids[x];
  }

  /** Without failures the sentinel is the first task of lowest score. */
  lemma SentinelIsLowest(tasks: seq<string>, trials: seq<Trial>, policy: Policy, c: Challenge)
    requires ChallengeFrom(tasks, trials, policy, c) && c.usedSentinel
    ensures |c.selected| == 1 && c.tasks == c.selected
    ensures c.clusters == [ClusterReport("sentinel.no_observed_failure", c.selected, c.selected)]
    ensures exists i: nat :: FirstLeast(tasks, (a, b) => RankLe(trials, a, b), i) && c.selected[0] == tasks[i]
  {
    var le := (a, b) => RankLe(trials, a, b);
    hide Rank, SortBy;
    assert TotalPreorder(le);
    var i := FirstOfLowest(tasks, le);
    assert c.selected == [tasks[i]] && c.selected[1..] == [];
    assert c.tasks == Resolve(c.selected, tasks) == [tasks[i]];
  }

  // ----- Which cluster comes first -----

  /** Trials of the report that failed with this signature. */
  function Occurrences(trials: seq<Trial>, signature: string): nat {
    Count(trials, (t: Trial) => Signature(t) == Some(signature))
  }

  /** Those among them with a failure in a safety category. */
  function SafetyOccurrences(trials: seq<Trial>, signature: string): nat {
    Count(trials, (t: Trial) =>
      Signature(t) == Some(signature)
      && (|| "privacy.no_raw_secret" in t.failureCategories || "deepresearch.source_isolation" in t.failureCategories
          || "deepresearch.checkpoints_intact" in t.failureCategories
          || "deepresearch.required_contracts_pass" in t.failureCategories))
  }

  /** Signature `a` is visited before `b`: more safety failures, then more trials, then the smaller text. */
  ghost predicate VisitedBefore(trials: seq<Trial>, a: string, b: string) {
    var p, q := SafetyOccurrences(trials, a), SafetyOccurrences(trials, b);
    var m, n := Occurrences(trials, a), Occurrences(trials, b);
    p > q || (p == q && (m > n || (m == n && StrLt(a, b))))
  }

  lemma UnsafeMeans(t: Trial)
    ensures Unsafe(t) <==>
              || "privacy.no_raw_secret" in t.failureCategories || "deepresearch.source_isolation" in t.failureCategories
              || "deepresearch.checkpoints_intact" in t.failureCategories
              || "deepresearch.required_contracts_pass" in t.failureCategories
  {
  }

  lemma {:induction false} ClusterCounted(trials: seq<Trial>, signature: string)
    ensures |Cluster(Failing(trials), signature)| == Occurrences(trials, signature)
    ensures UnsafeCount(Cluster(Failing(trials), signature)) == SafetyOccurrences(trials, signature)
  {
    if trials != [] {
      hide Signature, Unsafe;
      ClusterCounted(trials[1..], signature);
      UnsafeMeans(trials[0]);
      var t, rest := trials[0], Failing(trials[1..]);
      if Signature(t).Some? {
        assert Failing(trials) == [t] + rest;
        TaggedCons(t, rest, SignatureKey, signature);
        UnsafeCons(t, Cluster(rest, signature));
      } else {
        assert Failing(trials) == rest;
      }
    }
  }

  lemma UnsafeCons(t: Trial, trials: seq<Trial>)
    ensures UnsafeCount([t] + trials) == (if Unsafe(t) then 1 else 0) + UnsafeCount(trials)
    ensures [] + trials == trials
  {
    assert ([t] + trials)[1..] == trials;
  }

  lemma ClusterLeIs(trials: seq<Trial>, a: string, b: string)
    ensures ClusterLe(Failing(trials), a, b) <==> a == b || VisitedBefore(trials, a, b)
  {
    ClusterCounted(trials, a);
    ClusterCounted(trials, b);
    StrLtTrichotomy(a, b);
    hide Cluster, UnsafeCount, Occurrences, SafetyOccurrences, StrLt;
  }

  lemma ClusterLeTotal(failing: seq<Trial>)
    ensures TotalPreorder((a, b) => ClusterLe(failing, a, b))
  {
    StrLeTotal();
    hide Cluster, UnsafeCount, StrLe;
  }

  /** The cluster order is strictly by `VisitedBefore`. */
  lemma OrderStrict(trials: seq<Trial>, i: nat, j: nat)
    requires i < j < |ClusterOrder(Failing(trials))|
    ensures VisitedBefore(trials, ClusterOrder(Failing(trials))[i], ClusterOrder(Failing(trials))[j])
  {
    hide *;
    var order := ClusterOrder(Failing(trials));
    OrderPair(Failing(trials), i, j);
    ClusterLeIs(trials, order[i], order[j]);
  }

  lemma SortedOrder(failing: seq<Trial>)
    ensures multiset(ClusterOrder(failing)) == multiset(Distinct(Keys(failing, SignatureKey)))
    ensures Sorted(ClusterOrder(failing), (a, b) => ClusterLe(failing, a, b))
  {
    ClusterLeTotal(failing);
    hide ClusterLe;
    SortBySorted(Distinct(Keys(failing, SignatureKey)), (a, b) => ClusterLe(failing, a, b));
  }

  lemma OrderDistinct(failing: seq<Trial>)
    ensures AllDistinct(ClusterOrder(failing))
  {
    hide ClusterOrder;
    SortedOrder(failing);
    DistinctShuffled(Distinct(Keys(failing, SignatureKey)), ClusterOrder(failing));
  }

  lemma OrderPair(failing: seq<Trial>, i: nat, j: nat)
    requires i < j < |ClusterOrder(failing)|
    ensures ClusterOrder(failing)[i] != ClusterOrder(failing)[j]
    ensures ClusterLe(failing, ClusterOrder(failing)[i], ClusterOrder(failing)[j])
  {
    hide ClusterOrder, ClusterLe;
    SortedOrder(failing);
    OrderDistinct(failing);
  }

  /** The reported clusters are in order of falling safety failures, then of falling size, then of signature. */
  lemma ClustersInOrder(tasks: seq<string>, trials: seq<Trial>, policy: Policy, c: Challenge, i: nat, j: nat)
    requires ChallengeFrom(tasks, trials, policy, c) && !c.usedSentinel && i < j < |c.clusters|
    ensures VisitedBefore(trials, c.clusters[i].signature, c.clusters[j].signature)
  {
    ChallengeMeans(tasks, trials, policy, c);
    hide ChallengeFrom, ClusterOrder, Failing, VisitedBefore, Choices, TaskIdsOf, TaskIds, Cluster;
    OrderStrict(trials, i, j);
  }

  /** Every failing trial of the report, and no other, is in a cluster of its signature. */
  lemma {:induction false} FailingIs(trials: seq<Trial>)
    ensures forall t :: t in Failing(trials) <==> t in trials && Signature(t).Some?
  {
    if trials != [] {
      hide Signature;
      FailingIs(trials[1..]);
      assert trials == [trials[0]] + trials[1..];
    }
  }

  /** A signature that some trial failed with but no cluster reports comes after every reported one. */
  lemma UnreportedComesAfter(tasks: seq<string>, trials: seq<Trial>, policy: Policy, c: Challenge, t: Trial, i: nat)
    requires ChallengeFrom(tasks, trials, policy, c) && !c.usedSentinel && i < |c.clusters|
    requires t in trials && Signature(t).Some? && forall k | k in c.clusters :: k.signature != Signature(t).value
    ensures VisitedBefore(trials, c.clusters[i].signature, Signature(t).value)
  {
    ChallengeMeans(tasks, trials, policy, c);
    FailingIs(trials);
    assert SignatureKey(t) == Signature(t).value;
    hide ChallengeFrom, ClusterOrder, Failing, VisitedBefore, Choices, TaskIdsOf, TaskIds, Cluster, SignatureKey, Signature;
    forall k | 0 <= k < |c.clusters| ensures c.clusters[k].signature != Signature(t).value {
      assert c.clusters[k] in c.clusters;
    }
    var j := ClusterOf(Failing(trials), t);
    OrderStrict(trials, i, j);
  }

  // ----- What a cluster gives, and what a signature is made of -----

  /** A cluster gives the first of its tasks that no earlier cluster gave, in its own order. */
  lemma {:induction false} ChoicesTakeFirst(clusters: seq<seq<string>>, selected: seq<string>, policy: Policy, i: nat)
    requires |selected| < policy.maxTasks && i < |Choices(clusters, selected, policy)| <= |clusters|
    ensures var choices := Choices(clusters, selected, policy);
            choices[i] <= Filter(clusters[i], id => id !in selected + Concat(choices[..i]))
  {
    hide Concat, Without, Take, Filter;
    var chosen := Chosen(clusters[0], selected, policy);
    if i == 0 {
      assert selected + Concat(Choices(clusters, selected, policy)[..0]) == selected by { NothingFirst(selected); }
      WithoutIsFilter(clusters[0], selected, selected + Concat(Choices(clusters, selected, policy)[..0]));
    } else {
      var rest := Choices(clusters[1..], selected + chosen, policy);
      assert Choices(clusters, selected, policy) == [chosen] + rest;
      EveryClusterVisited(clusters[1..], selected + chosen, policy);
      ChoicesTakeFirst(clusters[1..], selected + chosen, policy, i - 1);
      assert ([chosen] + rest)[..i] == [chosen] + rest[..i - 1];
      ConcatCons(selected, chosen, rest[..i - 1]);
      SameFilter(clusters[i], (selected + chosen) + Concat(rest[..i - 1]), selected + Concat(([chosen] + rest)[..i]));
    }
  }

  lemma NothingFirst(selected: seq<string>)
    ensures selected + Concat([]) == selected
  {
  }

  lemma SameFilter(ids: seq<string>, a: seq<string>, b: seq<string>)
    requires a == b
    ensures Filter(ids, id => id !in a) == Filter(ids, id => id !in b)
  {
  }

  lemma {:induction false} WithoutIsFilter(ids: seq<string>, selected: seq<string>, same: seq<string>)
    requires same == selected
    ensures Without(ids, selected) == Filter(ids, id => id !in same)
  {
    if ids != [] {
      WithoutIsFilter(ids[1..], selected, same);
    }
  }

  /** The parts of a signature: an unusual status, a held claim review, and the failure categories. */
  lemma PartsMembers(t: Trial, p: string)
    ensures p in Parts(t) <==>
              && p != ""
              && (|| (p == t.runStatus && t.runStatus != "completed")
                  || (p == "claim:hold" && t.claimRecommendation == Some("hold"))
                  || p in t.failureCategories)
  {
    var sorted := SortBy(t.failureCategories, StrLe);
    PermutationFacts(sorted, t.failureCategories);
    hide SortBy, NonEmptyParts;
    var status := if t.runStatus != "completed" then t.runStatus else "";
    var claim := if t.claimRecommendation == Some("hold") then "claim:hold" else "";
    NonEmptyMembers([status, claim] + sorted, p);
    assert forall x :: x in [status, claim] + sorted <==> x == status || x == claim || x in sorted;
  }

  lemma {:induction false} NonEmptyMembers(parts: seq<string>, p: string)
    ensures p in NonEmptyParts(parts) <==> p in parts && p != ""
  {
    if parts != [] {
      NonEmptyMembers(parts[1..], p);
      assert parts == [parts[0]] + parts[1..];
    }
  }

  /** A failing trial's signature is its parts joined, or the default when there are none; texts without a bar
      determine the parts. */
  lemma SignatureDetermines(t: Trial, u: Trial)
    requires Parts(t) != [] && Parts(u) != [] && NoBars(Parts(t)) && NoBars(Parts(u)) && Signature(t) == Signature(u)
    ensures Parts(t) == Parts(u)
  {
    hide Parts, Join;
    JoinInjective(Parts(t), Parts(u));
  }

  // ----- The sentinel and the resolved tasks -----

  function ScoreOf(t: Trial): real {
    if t.score.Some? then t.score.value else -1.0
  }

  /** The rank of a task is the least score of its trials, a missing one counting as -1, and -1 without trials. */
  lemma {:induction false} RankIs(trials: seq<Trial>, taskId: string)
    ensures forall t | t in trials && t.taskId == taskId :: Rank(trials, taskId) <= ScoreOf(t)
    ensures if exists t :: t in trials && t.taskId == taskId
            then exists t :: t in trials && t.taskId == taskId && ScoreOf(t) == Rank(trials, taskId)
            else Rank(trials, taskId) == -1.0
  {
    if trials != [] {
      RankIs(trials[1..], taskId);
      assert trials == [trials[0]] + trials[1..];
      assert trials[0] in trials;
    }
  }

  /** The resolved tasks are the selected ones that the manifest has, in their order. */
  lemma {:induction false} ResolveIsFilter(ids: seq<string>, tasks: seq<string>)
    ensures Resolve(ids, tasks) == Filter(ids, id => id in tasks)
  {
    if ids != [] {
      ResolveIsFilter(ids[1..], tasks);
    }
  }
}
