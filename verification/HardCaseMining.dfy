/** Hard cases mined from a stability report: classification, bucketing by signature, and selection. */
module HardCaseMining {
  import opened Counting
  import opened Prelude
  import opened Grouping
  import opened Ordering
  import opened Rounding
  import RoundRobin

  /** A paired trial of the stability report; `caseId` is the digest that identifies it. */
  datatype Sample = Sample(
    caseId: string,
    baselineScore: real, candidateScore: real, scoreDelta: real,
    baselinePassed: bool, candidatePassed: bool,
    baselineSafety: real, candidateSafety: real,
    baselineFailed: seq<string>, candidateFailed: seq<string>)
  {
    /** The field bounds the report model enforces. */
    ghost predicate Valid() {
      && 0.0 <= baselineScore <= 1.0 && 0.0 <= candidateScore <= 1.0 && -1.0 <= scoreDelta <= 1.0
      && 0.0 <= baselineSafety <= 1.0 && 0.0 <= candidateSafety <= 1.0
    }
  }

  datatype Policy = Policy(maxCases: nat, maxPerSignature: nat, candidateFailures: bool, scoreRegressions: bool,
                           resolvedBaselineFailures: bool)
  {
    ghost predicate Valid() {
      maxCases > 0 && maxPerSignature > 0
    }
  }

  datatype Kind = SafetyRegression | CandidateFailure | ScoreRegression | ResolvedBaselineFailure

  datatype Severity = Critical | High | Medium {
    function Weight(): real {
      match this
      case Critical => 100.0
      case High => 70.0
      case Medium => 40.0
    }
  }

  datatype Entry = Entry(caseId: string, kind: Kind, severity: Severity, priority: real, signature: seq<string>)

  // ----- Classification -----

  function KindOf(s: Sample, policy: Policy): Option<Kind> {
    if s.baselineSafety == 1.0 && s.candidateSafety < 1.0 && policy.candidateFailures then Some(SafetyRegression)
    else if (!s.candidatePassed || s.candidateScore < 1.0) && policy.candidateFailures then Some(CandidateFailure)
    else if s.scoreDelta < 0.0 && policy.scoreRegressions then Some(ScoreRegression)
    else if !s.baselinePassed && s.candidatePassed && policy.resolvedBaselineFailures then Some(ResolvedBaselineFailure)
    else None
  }

  function SeverityOf(s: Sample, kind: Kind): Severity {
    match kind
    case SafetyRegression => Critical
    case CandidateFailure => if s.candidateSafety < 1.0 then Critical else High
    case ScoreRegression => High
    case ResolvedBaselineFailure => Medium
  }

  function NonNegative(x: real): real {
    if x > 0.0 then x else 0.0
  }

  function RawPriority(s: Sample, kind: Kind): real {
    SeverityOf(s, kind).Weight() + NonNegative(-s.scoreDelta) * 20.0 + (1.0 - s.candidateScore) * 10.0
    + if kind.ResolvedBaselineFailure? then NonNegative(s.scoreDelta) * 10.0 else 0.0
  }

  function OrDefault(failed: seq<string>, default_: string): seq<string> {
    if failed == [] then [default_] else failed
  }

  function SignatureOf(s: Sample, kind: Kind): seq<string> {
    match kind
    case SafetyRegression => SortBy(Distinct(s.candidateFailed + ["safety.regression"]), StrLe)
    case CandidateFailure => SortBy(OrDefault(s.candidateFailed, "replay.expectation_mismatch"), StrLe)
    case ScoreRegression => SortBy(OrDefault(s.candidateFailed, "score.paired_regression"), StrLe)
    case ResolvedBaselineFailure => SortBy(OrDefault(s.baselineFailed, "baseline.expectation_mismatch"), StrLe)
  }

  function EntryFor(s: Sample, policy: Policy): Option<Entry> {
    match KindOf(s, policy)
    case None => None
    case Some(kind) =>
      Some(Entry(s.caseId, kind, SeverityOf(s, kind), Round4(RawPriority(s, kind)), SignatureOf(s, kind)))
  }

  /** Every way a trial can fail or regress is mined when the policy asks for it, and nothing else is. */
  lemma MinedIff(s: Sample, policy: Policy)
    ensures EntryFor(s, policy).Some? <==>
              || (policy.candidateFailures && (!s.candidatePassed || s.candidateScore < 1.0
                                               || (s.baselineSafety == 1.0 && s.candidateSafety < 1.0)))
              || (policy.scoreRegressions && s.scoreDelta < 0.0)
              || (policy.resolvedBaselineFailures && !s.baselinePassed && s.candidatePassed)
  {
  }

  /** With candidate failures mined, an unsafe candidate that also failed or regressed from safe is critical. */
  lemma UnsafeIsCritical(s: Sample, policy: Policy)
    requires policy.candidateFailures && s.candidateSafety < 1.0
    requires s.baselineSafety == 1.0 || !s.candidatePassed || s.candidateScore < 1.0
    ensures EntryFor(s, policy).Some? && EntryFor(s, policy).value.severity == Critical
  {
  }

  /** The severity bands do not overlap: the adjustments never lift a case past the next severity. */
  lemma PriorityBands(s: Sample, policy: Policy)
    requires s.Valid() && EntryFor(s, policy).Some?
    ensures var e := EntryFor(s, policy).value;
            && (e.severity == Critical ==> 100.0 <= e.priority <= 130.0)
            && (e.severity == High ==> 70.0 <= e.priority <= 100.0)
            && (e.severity == Medium ==> 40.0 <= e.priority <= 70.0)
  {
    var kind := KindOf(s, policy).value;
    var raw := RawPriority(s, kind);
    var severity := SeverityOf(s, kind);
    match severity {
      case Critical => Round4Within(raw, 100, 130);
      case High => Round4Within(raw, 70, 100);
      case Medium => Round4Within(raw, 40, 70);
    }
  }

  /** The order in which a trial lists its failed checks does not matter. */
  lemma EntryIgnoresCheckOrder(s: Sample, t: Sample, policy: Policy)
    requires multiset(s.candidateFailed) == multiset(t.candidateFailed)
    requires multiset(s.baselineFailed) == multiset(t.baselineFailed)
    requires t == s.(candidateFailed := t.candidateFailed, baselineFailed := t.baselineFailed)
    ensures EntryFor(s, policy) == EntryFor(t, policy)
  {
    hide SignatureOf, Round4;
    if KindOf(s, policy).Some? {
      SignatureIgnoresCheckOrder(s, t, KindOf(s, policy).value);
    }
  }

  lemma SignatureIgnoresCheckOrder(s: Sample, t: Sample, kind: Kind)
    requires multiset(s.candidateFailed) == multiset(t.candidateFailed)
    requires multiset(s.baselineFailed) == multiset(t.baselineFailed)
    ensures SignatureOf(s, kind) == SignatureOf(t, kind)
  {
    hide SortBy, StrLe, Distinct, OrDefault;
    match kind {
      case SafetyRegression =>
        var marker := ["safety.regression"];
        assert multiset(s.candidateFailed + marker) == multiset(t.candidateFailed + marker);
        PermutationFacts(s.candidateFailed + marker, t.candidateFailed + marker);
        SameSetSameMultiset(Distinct(s.candidateFailed + marker), Distinct(t.candidateFailed + marker));
        SameSort(Distinct(s.candidateFailed + marker), Distinct(t.candidateFailed + marker));
      case CandidateFailure =>
        DefaultsAgree(s.candidateFailed, t.candidateFailed, "replay.expectation_mismatch");
      case ScoreRegression =>
        DefaultsAgree(s.candidateFailed, t.candidateFailed, "score.paired_regression");
      case ResolvedBaselineFailure =>
        DefaultsAgree(s.baselineFailed, t.baselineFailed, "baseline.expectation_mismatch");
    }
  }

  lemma DefaultsAgree(a: seq<string>, b: seq<string>, default_: string)
    requires multiset(a) == multiset(b)
    ensures SortBy(OrDefault(a, default_), StrLe) == SortBy(OrDefault(b, default_), StrLe)
  {
    PermutationFacts(a, b);
    SameSort(OrDefault(a, default_), OrDefault(b, default_));
  }

  /** What the trial shows that the policy wants, and with it how severe the case is. */
  lemma SeverityIs(s: Sample, policy: Policy)
    requires EntryFor(s, policy).Some?
    ensures var unsafe := s.baselineSafety == 1.0 && s.candidateSafety < 1.0;
            var failed := policy.candidateFailures && (unsafe || !s.candidatePassed || s.candidateScore < 1.0);
            var worse := policy.scoreRegressions && s.scoreDelta < 0.0;
            var e := EntryFor(s, policy).value;
            && e.caseId == s.caseId
            && (e.severity == Critical <==> failed && s.candidateSafety < 1.0)
            && (e.severity == Medium <==> !failed && !worse)
            && (e.kind == SafetyRegression <==> failed && unsafe)
            && (e.kind == CandidateFailure <==> failed && !unsafe)
            && (e.kind == ScoreRegression <==> !failed && worse)
  {
  }

  /** The priority is the weight of the severity, plus twenty for a whole point lost, plus ten for a whole point
      missing, plus ten for a whole point gained where a baseline failure was resolved, up to rounding. */
  lemma PriorityIs(s: Sample, policy: Policy)
    requires EntryFor(s, policy).Some?
    ensures var e := EntryFor(s, policy).value;
            var weight := if e.severity == Critical then 100.0 else if e.severity == High then 70.0 else 40.0;
            var missing := weight + 10.0 * (1.0 - s.candidateScore);
            var exact := if s.scoreDelta <= 0.0 then missing - 20.0 * s.scoreDelta
                         else if e.kind == ResolvedBaselineFailure then missing + 10.0 * s.scoreDelta else missing;
            exact - 0.00005 <= e.priority <= exact + 0.00005
  {
    hide Round4, SignatureOf;
    Round4Close(RawPriority(s, KindOf(s, policy).value));
  }

  /** Between cases of one kind and severity, a larger loss or a lower score never lowers the priority. */
  lemma WorseRanksNoLower(s: Sample, t: Sample, policy: Policy)
    requires EntryFor(s, policy).Some? && EntryFor(t, policy).Some?
    requires EntryFor(s, policy).value.kind == EntryFor(t, policy).value.kind
    requires EntryFor(s, policy).value.severity == EntryFor(t, policy).value.severity
    requires s.scoreDelta <= t.scoreDelta <= 0.0 || s.scoreDelta == t.scoreDelta
    requires s.candidateScore <= t.candidateScore
    ensures EntryFor(s, policy).value.priority >= EntryFor(t, policy).value.priority
  {
    hide Round4, SignatureOf;
    var kind := KindOf(s, policy).value;
    assert KindOf(t, policy).value == kind;
    Round4Monotone(RawPriority(t, kind), RawPriority(s, kind));
  }

  /** The signature lists, in code-point order, the failed checks that explain the case, or the one name that
      stands for having none; a safety regression adds its marker and drops repetitions. */
  lemma SignatureIs(s: Sample, policy: Policy)
    requires EntryFor(s, policy).Some?
    ensures var e := EntryFor(s, policy).value;
            var explains := if e.kind == ResolvedBaselineFailure then s.baselineFailed else s.candidateFailed;
            && e.signature != []
            && (forall i, j | 0 <= i < j < |e.signature| ::
                  e.signature[i] == e.signature[j] || StrLt(e.signature[i], e.signature[j]))
            && (e.kind == SafetyRegression ==>
                  && (forall c :: c in e.signature <==> c in s.candidateFailed || c == "safety.regression")
                  && (forall i, j | 0 <= i < j < |e.signature| :: e.signature[i] != e.signature[j]))
            && (e.kind != SafetyRegression && explains != [] ==> multiset(e.signature) == multiset(explains))
            && (e.kind == CandidateFailure && explains == [] ==> e.signature == ["replay.expectation_mismatch"])
            && (e.kind == ScoreRegression && explains == [] ==> e.signature == ["score.paired_regression"])
            && (e.kind == ResolvedBaselineFailure && explains == [] ==> e.signature == ["baseline.expectation_mismatch"])
  {
    var kind := KindOf(s, policy).value;
    hide Round4, KindOf, RawPriority;
    match kind {
      case SafetyRegression =>
        var marked := s.candidateFailed + ["safety.regression"];
        assert forall c :: c in marked <==> c in s.candidateFailed || c == "safety.regression";
        SortedNames(Distinct(marked));
        DistinctShuffled(Distinct(marked), SortBy(Distinct(marked), StrLe));
      case CandidateFailure => SortedNames(OrDefault(s.candidateFailed, "replay.expectation_mismatch"));
      case ScoreRegression => SortedNames(OrDefault(s.candidateFailed, "score.paired_regression"));
      case ResolvedBaselineFailure => SortedNames(OrDefault(s.baselineFailed, "baseline.expectation_mismatch"));
    }
  }

  lemma SortedNames(names: seq<string>)
    ensures var sorted := SortBy(names, StrLe);
            && multiset(sorted) == multiset(names) && |sorted| == |names| && (forall c :: c in sorted <==> c in names)
            && (forall i, j | 0 <= i < j < |sorted| :: sorted[i] == sorted[j] || StrLt(sorted[i], sorted[j]))
            && (|names| == 1 ==> sorted == names)
  {
    hide SortBy;
    StrLeTotal();
    SortBySorted(names, StrLe);
    var sorted := SortBy(names, StrLe);
    PermutationFacts(sorted, names);
    forall i, j | 0 <= i < j < |sorted| ensures sorted[i] == sorted[j] || StrLt(sorted[i], sorted[j]) {
      assert StrLe(sorted[i], sorted[j]);
      StrLtTrichotomy(sorted[i], sorted[j]);
    }
    if |names| == 1 {
      assert sorted[0] in names;
      assert sorted == [sorted[0]] && names == [names[0]];
    }
  }

  // ----- Ordering and buckets -----

  /** The sort key `(-priority_score, case_id)`. */
  predicate EntryLe(a: Entry, b: Entry) {
    a.priority > b.priority || (a.priority == b.priority && StrLe(a.caseId, b.caseId))
  }

  function EntriesFor(samples: seq<Sample>, policy: Policy): seq<Entry> {
    if samples == [] then []
    else
      var e := EntryFor(samples[0], policy);
      (if e.Some? then [e.value] else []) + EntriesFor(samples[1..], policy)
  }

  /** Every mined case, highest priority first. */
  function Eligible(samples: seq<Sample>, policy: Policy): seq<Entry> {
    SortBy(EntriesFor(samples, policy), EntryLe)
  }

  function KindName(kind: Kind): string {
    match kind
    case SafetyRegression => "safety_regression"
    case CandidateFailure => "candidate_failure"
    case ScoreRegression => "score_regression"
    case ResolvedBaselineFailure => "resolved_baseline_failure"
  }

  function BucketKey(e: Entry): string {
    KindName(e.kind) + "|" + Join(e.signature)
  }

  function Bucket(eligible: seq<Entry>, key: string): seq<Entry> {
    Tagged(eligible, BucketKey, key)
  }

  /** The sort key `(-priority of the first case, key)` of a bucket. */
  predicate BucketLe(eligible: seq<Entry>, a: string, b: string) {
    var p, q := TopPriority(eligible, a), TopPriority(eligible, b);
    p > q || (p == q && StrLe(a, b))
  }

  function TopPriority(eligible: seq<Entry>, key: string): real {
    var bucket := Bucket(eligible, key);
    if bucket == [] then 0.0 else bucket[0].priority
  }

  function BucketOrder(eligible: seq<Entry>): seq<string> {
    SortBy(Distinct(Keys(eligible, BucketKey)), (a, b) => BucketLe(eligible, a, b))
  }

  // ----- Mining -----

  datatype Report = Report(eligibleCount: nat, selectedCount: nat, distinctSignatures: nat, selectedSignatures: nat,
                           coverage: real, cases: seq<Entry>)

  function Lookup(buckets: map<string, seq<Entry>>, order: seq<string>): (lists: seq<seq<Entry>>)
    requires forall key | key in order :: key in buckets
    ensures |lists| == |order|
  {
    seq(|order|, i requires 0 <= i < |order| => buckets[order[i]])
  }

  /** The buckets in the order the rounds visit them. */
  function OrderedBuckets(eligible: seq<Entry>): (lists: seq<seq<Entry>>)
    ensures |lists| == |BucketOrder(eligible)|
  {
    var order := BucketOrder(eligible);
    seq(|order|, i requires 0 <= i < |order| => Bucket(eligible, order[i]))
  }

  /** The most cases the policy allows out of these buckets. */
  function Capacity(eligible: seq<Entry>, policy: Policy): nat {
    RoundRobin.Min(policy.maxCases, RoundRobin.SumLimits(OrderedBuckets(eligible), policy.maxPerSignature))
  }

  method Mine(samples: seq<Sample>, policy: Policy) returns (report: Report)
    requires policy.Valid()
    ensures var eligible := Eligible(samples, policy);
            && report.eligibleCount == |eligible| && report.distinctSignatures == |BucketOrder(eligible)|
            && report.selectedCount == |report.cases|
            && (exists counts: seq<nat> :: Selection(eligible, policy, report, counts))
  {
    hide *;
    var eligible := Eligible(samples, policy);
    var buckets, keys := FillGroups(eligible, BucketKey);
    var order := SortBy(keys, (a, b) => BucketLe(eligible, a, b));
    InBuckets(eligible);
    var lists := Lookup(buckets, order);
    var cases, counts := RoundRobin.Select(lists, policy.maxCases, policy.maxPerSignature);
    var served := RoundRobin.Positive(counts);
    var coverage := if |order| == 0 then 0.0 else Round4(served as real / |order| as real);
    report := Report(|eligible|, |cases|, |order|, served, coverage, cases);
    Selected(eligible, policy, report, counts);
  }

  /** The cases are those round-robin deals, and the counters are taken from the same run. */
  ghost predicate Selection(eligible: seq<Entry>, policy: Policy, report: Report, counts: seq<nat>) {
    var signatures := |BucketOrder(eligible)|;
    && RoundRobin.Dealt(OrderedBuckets(eligible), policy.maxCases, policy.maxPerSignature, report.cases, counts)
    && report.selectedSignatures == RoundRobin.Positive(counts)
    && report.coverage == if signatures == 0 then 0.0 else Round4(report.selectedSignatures as real / signatures as real)
  }

  lemma Selected(eligible: seq<Entry>, policy: Policy, report: Report, counts: seq<nat>)
    requires RoundRobin.Dealt(OrderedBuckets(eligible), policy.maxCases, policy.maxPerSignature, report.cases, counts)
    requires report.selectedSignatures == RoundRobin.Positive(counts)
    requires var n := |BucketOrder(eligible)|;
             report.coverage == if n == 0 then 0.0 else Round4(report.selectedSignatures as real / n as real)
    ensures Selection(eligible, policy, report, counts)
  {
  }

  lemma OrderIsShuffle(eligible: seq<Entry>)
    ensures multiset(BucketOrder(eligible)) == multiset(Distinct(Keys(eligible, BucketKey)))
    ensures forall key | key in BucketOrder(eligible) :: key in Keys(eligible, BucketKey)
    ensures forall key | key in Keys(eligible, BucketKey) :: key in BucketOrder(eligible)
  {
    PermutationFacts(BucketOrder(eligible), Distinct(Keys(eligible, BucketKey)));
  }

  lemma InBuckets(eligible: seq<Entry>)
    ensures BucketOrder(eligible) == SortBy(Distinct(Keys(eligible, BucketKey)), (a, b) => BucketLe(eligible, a, b))
    ensures forall key | key in BucketOrder(eligible) :: key in Groups(eligible, BucketKey)
    ensures Lookup(Groups(eligible, BucketKey), BucketOrder(eligible)) == OrderedBuckets(eligible)
  {
    PermutationFacts(BucketOrder(eligible), Distinct(Keys(eligible, BucketKey)));
  }

  // ----- What mining guarantees -----

  lemma EntryLeTotal()
    ensures TotalPreorder(EntryLe)
  {
    StrLeTotal();
  }

  lemma BucketLeTotal(eligible: seq<Entry>)
    ensures TotalPreorder((a, b) => BucketLe(eligible, a, b))
    ensures forall a, b :: BucketLe(eligible, a, b) && BucketLe(eligible, b, a) ==> a == b
  {
    StrLeTotal();
    hide StrLe, TopPriority;
  }

  /** The bucket order depends on the eligible cases only, not on the order of filing. */
  lemma BucketOrderUnique(eligible: seq<Entry>, keys: seq<string>)
    requires multiset(keys) == multiset(Distinct(Keys(eligible, BucketKey)))
    ensures SortBy(keys, (a, b) => BucketLe(eligible, a, b)) == BucketOrder(eligible)
  {
    var le := (a, b) => BucketLe(eligible, a, b);
    BucketLeTotal(eligible);
    hide BucketLe;
    SortBySorted(keys, le);
    SortBySorted(Distinct(Keys(eligible, BucketKey)), le);
    SortedUnique(SortBy(keys, le), SortBy(Distinct(Keys(eligible, BucketKey)), le), le);
  }

  /** The ordered buckets are the non-empty buckets, each once, each with its own key. */
  lemma OrderedBucketsTagged(eligible: seq<Entry>)
    ensures RoundRobin.TaggedBuckets(OrderedBuckets(eligible), BucketKey, BucketOrder(eligible))
    ensures forall i | 0 <= i < |OrderedBuckets(eligible)| :: OrderedBuckets(eligible)[i] != []
  {
    hide BucketOrder, BucketKey, Distinct, Tagged;
    var order, lists := BucketOrder(eligible), OrderedBuckets(eligible);
    DistinctSorted(eligible);
    OrderIsShuffle(eligible);
    forall i | 0 <= i < |lists| ensures lists[i] != [] {
      BucketNotEmpty(eligible, order[i]);
    }
    forall i, x | 0 <= i < |lists| && 0 <= x < |lists[i]| ensures BucketKey(lists[i][x]) == order[i] {
      TaggedMember(eligible, BucketKey, order[i], x);
    }
  }

  lemma DistinctSorted(eligible: seq<Entry>)
    ensures forall i, k | 0 <= i < k < |BucketOrder(eligible)| :: BucketOrder(eligible)[i] != BucketOrder(eligible)[k]
  {
    hide *;
    OrderIsShuffle(eligible);
    DistinctShuffled(Distinct(Keys(eligible, BucketKey)), BucketOrder(eligible));
  }

  /** The size of the result, the share of every signature, and how many signatures are represented. */
  lemma SelectionTotals(eligible: seq<Entry>, policy: Policy, report: Report, counts: seq<nat>)
    requires policy.Valid() && Selection(eligible, policy, report, counts)
    ensures |report.cases| == Capacity(eligible, policy)
    ensures report.selectedSignatures == RoundRobin.Min(policy.maxCases, |BucketOrder(eligible)|)
    ensures 0.0 <= report.coverage <= 1.0
    ensures 0 < |BucketOrder(eligible)| <= policy.maxCases ==> report.coverage == 1.0
  {
    hide OrderedBuckets, BucketOrder, Round4, RoundRobin.Dealt, RoundRobin.SumLimits, RoundRobin.Positive;
    var lists := OrderedBuckets(eligible);
    OrderedBucketsTagged(eligible);
    RoundRobin.SelectedTotal(lists, policy.maxCases, policy.maxPerSignature, report.cases, counts);
    RoundRobin.BucketsServed(lists, policy.maxCases, policy.maxPerSignature, report.cases, counts);
    var signatures := |BucketOrder(eligible)|;
    ShareRange(report.selectedSignatures, signatures);
  }

  lemma ShareRange(part: nat, whole: nat)
    requires part <= whole
    ensures whole > 0 ==> 0.0 <= Round4(part as real / whole as real) <= 1.0
    ensures 0 < whole == part ==> Round4(part as real / whole as real) == 1.0
  {
    if whole > 0 {
      assert 0.0 <= part as real / whole as real <= 1.0;
      Round4Within(part as real / whole as real, 0, 1);
      Round4Whole(1);
      RatioOne(whole as real);
    }
  }

  lemma RatioOne(x: real)
    requires x > 0.0
    ensures x / x == 1.0
  {
  }

  /** From each bucket the selection takes the first cases, which are those of highest priority, and no
      more than the cap. */
  lemma SelectionTakesHighest(eligible: seq<Entry>, policy: Policy, report: Report, counts: seq<nat>, key: string)
    requires Selection(eligible, policy, report, counts) && Sorted(eligible, EntryLe)
    ensures var taken := Bucket(report.cases, key);
            && |taken| <= RoundRobin.Limit(Bucket(eligible, key), policy.maxPerSignature)
            && taken <= Bucket(eligible, key)
            && forall kept, left | kept in taken && left in Bucket(eligible, key)[|taken|..] :: EntryLe(kept, left)
  {
    hide Selection, Bucket, EntryLe, RoundRobin.Limit;
    BucketTaken(eligible, policy, report, counts, key);
    BucketSorted(eligible, key);
    var bucket, n := Bucket(eligible, key), |Bucket(report.cases, key)|;
    forall kept, left | kept in bucket[..n] && left in bucket[n..] ensures EntryLe(kept, left) {
      var i :| 0 <= i < n && bucket[..n][i] == kept;
      var k :| 0 <= k < |bucket| - n && bucket[n..][k] == left;
      assert bucket[i] == kept && bucket[n + k] == left;
    }
  }

  lemma BucketTaken(eligible: seq<Entry>, policy: Policy, report: Report, counts: seq<nat>, key: string)
    requires Selection(eligible, policy, report, counts)
    ensures var taken := Bucket(report.cases, key);
            && |taken| <= RoundRobin.Limit(Bucket(eligible, key), policy.maxPerSignature)
            && taken <= Bucket(eligible, key)
    ensures forall i | 0 <= i < |BucketOrder(eligible)| && BucketOrder(eligible)[i] == key ::
              i < |counts| && counts[i] == |Bucket(report.cases, key)|
  {
    hide BucketOrder, BucketKey, Tagged, RoundRobin.Dealt, RoundRobin.Limit, RoundRobin.TaggedBuckets;
    var lists, order := OrderedBuckets(eligible), BucketOrder(eligible);
    OrderedBucketsTagged(eligible);
    if key in order {
      forall i | 0 <= i < |order| && order[i] == key
        ensures lists[i] == Bucket(eligible, key) && i < |counts| && counts[i] == |Bucket(report.cases, key)|
        ensures |Bucket(report.cases, key)| <= RoundRobin.Limit(lists[i], policy.maxPerSignature)
        ensures Bucket(report.cases, key) <= Bucket(eligible, key)
      {
        RoundRobin.SelectedPrefixes(lists, policy.maxCases, policy.maxPerSignature, report.cases, counts, BucketKey, order, i);
      }
    } else {
      RoundRobin.SelectedNothingElse(lists, policy.maxCases, policy.maxPerSignature, report.cases, counts, BucketKey, order, key);
    }
  }

  lemma {:induction false} BucketSorted(entries: seq<Entry>, key: string)
    requires Sorted(entries, EntryLe)
    ensures Sorted(Bucket(entries, key), EntryLe)
  {
    hide EntryLe, BucketKey;
    if entries != [] {
      BucketSorted(entries[1..], key);
      var rest := Bucket(entries[1..], key);
      forall i | 0 <= i < |rest| ensures EntryLe(entries[0], rest[i]) {
        TaggedMember(entries[1..], BucketKey, key, i);
        var k :| 0 <= k < |entries[1..]| && entries[1..][k] == rest[i];
        assert entries[k + 1] == rest[i];
      }
    }
  }

  /** A signature that could still give a case is at most one case behind any other. */
  lemma SelectionFair(eligible: seq<Entry>, policy: Policy, report: Report, counts: seq<nat>, key: string, other: string)
    requires Selection(eligible, policy, report, counts) && key in BucketOrder(eligible) && other in BucketOrder(eligible)
    requires |Bucket(report.cases, key)| < RoundRobin.Limit(Bucket(eligible, key), policy.maxPerSignature)
    ensures |Bucket(report.cases, other)| <= |Bucket(report.cases, key)| + 1
  {
    hide BucketOrder, Bucket, RoundRobin.Dealt, RoundRobin.Limit;
    var lists, order := OrderedBuckets(eligible), BucketOrder(eligible);
    BucketTaken(eligible, policy, report, counts, key);
    BucketTaken(eligible, policy, report, counts, other);
    var i :| 0 <= i < |order| && order[i] == key;
    var k :| 0 <= k < |order| && order[k] == other;
    RoundRobin.SelectedFairly(lists, policy.maxCases, policy.maxPerSignature, report.cases, counts, i, k);
  }

  /** The eligible cases are in priority order, so the lemmas above apply to every run. */
  lemma EligibleSorted(samples: seq<Sample>, policy: Policy)
    ensures Sorted(Eligible(samples, policy), EntryLe)
    ensures var eligible := Eligible(samples, policy);
            forall i, j | 0 <= i < j < |eligible| ::
              || eligible[i].priority > eligible[j].priority
              || (eligible[i].priority == eligible[j].priority
                  && (eligible[i].caseId == eligible[j].caseId || StrLt(eligible[i].caseId, eligible[j].caseId)))
  {
    EntryLeTotal();
    SortBySorted(EntriesFor(samples, policy), EntryLe);
    var eligible := Eligible(samples, policy);
    hide Eligible;
    forall i, j | 0 <= i < j < |eligible|
      ensures || eligible[i].priority > eligible[j].priority
              || (eligible[i].priority == eligible[j].priority
                  && (eligible[i].caseId == eligible[j].caseId || StrLt(eligible[i].caseId, eligible[j].caseId)))
    {
      assert EntryLe(eligible[i], eligible[j]);
      StrLtTrichotomy(eligible[i].caseId, eligible[j].caseId);
    }
  }

  /** The eligible cases are the entries of the mined trials, one for each. */
  lemma {:induction false} EligibleAre(samples: seq<Sample>, policy: Policy)
    ensures |Eligible(samples, policy)| == Count(samples, (s: Sample) => EntryFor(s, policy).Some?)
    ensures forall e :: e in Eligible(samples, policy) <==> exists s :: s in samples && EntryFor(s, policy) == Some(e)
  {
    hide EntryFor, SortBy, EntryLe;
    EntriesAre(samples, policy);
    PermutationFacts(Eligible(samples, policy), EntriesFor(samples, policy));
  }

  lemma {:induction false} EntriesAre(samples: seq<Sample>, policy: Policy)
    ensures |EntriesFor(samples, policy)| == Count(samples, (s: Sample) => EntryFor(s, policy).Some?)
    ensures forall e :: e in EntriesFor(samples, policy) <==> exists s :: s in samples && EntryFor(s, policy) == Some(e)
  {
    hide EntryFor;
    if samples != [] {
      EntriesAre(samples[1..], policy);
      assert samples == [samples[0]] + samples[1..];
      forall e ensures e in EntriesFor(samples, policy) <==> exists s :: s in samples && EntryFor(s, policy) == Some(e) {
        if s :| s in samples && EntryFor(s, policy) == Some(e) {
          assert s == samples[0] || s in samples[1..];
        }
      }
    }
  }

  /** `p` is the highest priority among the cases filed under `key`. */
  ghost predicate Highest(eligible: seq<Entry>, key: string, p: real) {
    && (exists e :: e in eligible && BucketKey(e) == key && e.priority == p)
    && (forall e | e in eligible && BucketKey(e) == key :: e.priority <= p)
  }

  /** Buckets are visited by falling highest priority, those of equal priority by key. */
  lemma BucketsInOrder(eligible: seq<Entry>, i: nat, j: nat, p: real, q: real)
    requires Sorted(eligible, EntryLe) && i < j < |BucketOrder(eligible)|
    requires Highest(eligible, BucketOrder(eligible)[i], p) && Highest(eligible, BucketOrder(eligible)[j], q)
    ensures p > q || (p == q && StrLt(BucketOrder(eligible)[i], BucketOrder(eligible)[j]))
  {
    hide *;
    var a, b := BucketOrder(eligible)[i], BucketOrder(eligible)[j];
    TopIsHighest(eligible, a, p);
    TopIsHighest(eligible, b, q);
    BucketOrderSorted(eligible);
    DistinctSorted(eligible);
    SortedPair(eligible, BucketOrder(eligible), i, j);
    BucketLeMeans(eligible, a, b);
  }

  lemma SortedPair(eligible: seq<Entry>, order: seq<string>, i: nat, j: nat)
    requires Sorted(order, (a, b) => BucketLe(eligible, a, b)) && i < j < |order|
    ensures BucketLe(eligible, order[i], order[j])
  {
    hide BucketLe;
    var le := (a, b) => BucketLe(eligible, a, b);
    assert le(order[i], order[j]);
  }

  lemma BucketLeMeans(eligible: seq<Entry>, a: string, b: string)
    requires BucketLe(eligible, a, b) && a != b
    ensures var p, q := TopPriority(eligible, a), TopPriority(eligible, b); p > q || (p == q && StrLt(a, b))
  {
    hide TopPriority;
    StrLtTrichotomy(a, b);
  }

  lemma TopIsHighest(eligible: seq<Entry>, key: string, p: real)
    requires Sorted(eligible, EntryLe) && Highest(eligible, key, p)
    ensures TopPriority(eligible, key) == p
  {
    var e :| e in eligible && BucketKey(e) == key && e.priority == p;
    var i :| 0 <= i < |eligible| && eligible[i] == e;
    hide BucketKey;
    TaggedHolds(eligible, BucketKey, i);
    BucketSorted(eligible, key);
    var bucket := Bucket(eligible, key);
    TaggedMember(eligible, BucketKey, key, 0);
    hide Bucket;
    var k :| 0 <= k < |bucket| && bucket[k] == e;
    assert k > 0 ==> EntryLe(bucket[0], bucket[k]);
  }

  /** Cases share a bucket exactly when they are of one kind with one signature, as long as no check name holds
      a bar. */
  lemma SameBucketIff(a: Entry, b: Entry)
    requires a.signature != [] && b.signature != [] && NoBars(a.signature) && NoBars(b.signature)
    ensures BucketKey(a) == BucketKey(b) <==> a.kind == b.kind && a.signature == b.signature
  {
    if BucketKey(a) == BucketKey(b) {
      SameFirstPart(KindName(a.kind), Join(a.signature), KindName(b.kind), Join(b.signature));
      KindNamesDiffer(a.kind, b.kind);
      JoinInjective(a.signature, b.signature);
    }
  }

  lemma KindNamesDiffer(a: Kind, b: Kind)
    requires KindName(a) == KindName(b)
    ensures a == b
  {
    assert KindName(a)[1] == KindName(b)[1];
  }

  /** Whatever the budget, the first case mined is one of highest priority. */
  lemma FirstCaseIsTop(eligible: seq<Entry>, policy: Policy, report: Report, counts: seq<nat>)
    requires policy.Valid() && Selection(eligible, policy, report, counts)
    requires Sorted(eligible, EntryLe) && eligible != []
    ensures report.cases != [] && report.cases[0].priority == eligible[0].priority
  {
    hide BucketOrder, BucketKey, Tagged, Sorted, EntryLe, RoundRobin.Dealt, RoundRobin.TaggedBuckets;
    var lists, order, key := OrderedBuckets(eligible), BucketOrder(eligible), BucketKey(eligible[0]);
    OrderedBucketsTagged(eligible);
    TopBucketFirst(eligible);
    RoundRobin.SelectedFirst(lists, policy.maxCases, policy.maxPerSignature, report.cases, counts);
    assert report.cases[0] in Bucket(eligible, order[0]);
    TaggedMember(eligible, BucketKey, order[0], 0);
    var i :| 0 <= i < |eligible| && eligible[i] == report.cases[0];
    FirstIsHighest(eligible, i);
  }

  lemma FirstIsHighest(eligible: seq<Entry>, i: nat)
    requires Sorted(eligible, EntryLe) && i < |eligible|
    ensures eligible[0].priority >= eligible[i].priority
  {
    assert i > 0 ==> EntryLe(eligible[0], eligible[i]);
  }

  lemma TopBucketFirst(eligible: seq<Entry>)
    requires eligible != []
    ensures BucketOrder(eligible) != [] && Bucket(eligible, BucketOrder(eligible)[0]) != []
    ensures Bucket(eligible, BucketOrder(eligible)[0])[0].priority >= eligible[0].priority
  {
    hide *;
    var order, key := BucketOrder(eligible), BucketKey(eligible[0]);
    FirstHeadsItsBucket(eligible);
    OrderIsShuffle(eligible);
    BucketOrderSorted(eligible);
    var i :| 0 <= i < |order| && order[i] == key;
    FirstBucketLe(eligible, i);
    BucketNotEmpty(eligible, order[0]);
    TopOf(eligible, order[0], key);
  }

  /** The first case heads its bucket. */
  lemma FirstHeadsItsBucket(eligible: seq<Entry>)
    requires eligible != []
    ensures BucketKey(eligible[0]) in Keys(eligible, BucketKey)
    ensures Bucket(eligible, BucketKey(eligible[0])) != [] && Bucket(eligible, BucketKey(eligible[0]))[0] == eligible[0]
  {
    hide BucketKey;
    assert Keys(eligible, BucketKey)[0] == BucketKey(eligible[0]);
  }

  lemma FirstBucketLe(eligible: seq<Entry>, i: nat)
    requires Sorted(BucketOrder(eligible), (a, b) => BucketLe(eligible, a, b)) && i < |BucketOrder(eligible)|
    ensures BucketLe(eligible, BucketOrder(eligible)[0], BucketOrder(eligible)[i])
  {
    hide BucketOrder, TopPriority;
    StrLeTotal();
  }

  lemma BucketNotEmpty(eligible: seq<Entry>, key: string)
    requires key in Keys(eligible, BucketKey)
    ensures Bucket(eligible, key) != []
  {
    hide BucketKey, Tagged;
    var k :| 0 <= k < |eligible| && BucketKey(eligible[k]) == key;
    TaggedHolds(eligible, BucketKey, k);
  }

  lemma TopOf(eligible: seq<Entry>, a: string, b: string)
    requires BucketLe(eligible, a, b) && Bucket(eligible, a) != [] && Bucket(eligible, b) != []
    ensures Bucket(eligible, a)[0].priority >= Bucket(eligible, b)[0].priority
  {
    hide Bucket, StrLe;
  }

  lemma BucketOrderSorted(eligible: seq<Entry>)
    ensures Sorted(BucketOrder(eligible), (a, b) => BucketLe(eligible, a, b))
  {
    BucketLeTotal(eligible);
    SortBySorted(Distinct(Keys(eligible, BucketKey)), (a, b) => BucketLe(eligible, a, b));
  }
}
