/** Round-robin selection over buckets, with a cap for each bucket and a cap in all. */
module RoundRobin {
  import opened Grouping

  function Min(a: nat, b: nat): (m: nat)
    ensures m <= a && m <= b && (m == a || m == b)
  {
    if a <= b then a else b
  }

  /** The most one bucket may contribute. */
  function Limit<T>(bucket: seq<T>, cap: nat): (limit: nat)
    ensures limit <= |bucket| && limit <= cap && (limit < cap ==> limit == |bucket|)
  {
    Min(|bucket|, cap)
  }

  /** What a bucket gives in round `r`: its next item, unless it is empty by then or at its cap. */
  function Deal<T>(bucket: seq<T>, cap: nat, r: nat): seq<T> {
    if r < Limit(bucket, cap) then [bucket[r]] else []
  }

  /** What round `r` deals: one item from each bucket that still has one under its cap. */
  function Round<T>(buckets: seq<seq<T>>, cap: nat, r: nat): (dealt: seq<T>)
  {
    if buckets == [] then []
    else Deal(buckets[0], cap, r) + Round(buckets[1..], cap, r)
  }

  /** The first `rounds` rounds one after the other. */
  function Rounds<T>(buckets: seq<seq<T>>, cap: nat, rounds: nat): seq<T> {
    if rounds == 0 then [] else Rounds(buckets, cap, rounds - 1) + Round(buckets, cap, rounds - 1)
  }

  /** Every item the caps allow, in the order round-robin deals them; no round after `cap` deals any. */
  function Schedule<T>(buckets: seq<seq<T>>, cap: nat): seq<T> {
    Rounds(buckets, cap, cap)
  }

  function SumLimits<T>(buckets: seq<seq<T>>, cap: nat): nat {
    if buckets == [] then 0 else Limit(buckets[0], cap) + SumLimits(buckets[1..], cap)
  }

  function Sum(counts: seq<nat>): nat {
    if counts == [] then 0 else counts[0] + Sum(counts[1..])
  }

  function Positive(counts: seq<nat>): nat {
    if counts == [] then 0 else (if counts[0] > 0 then 1 else 0) + Positive(counts[1..])
  }

  lemma {:induction false} SumIncrement(counts: seq<nat>, i: nat)
    requires i < |counts|
    ensures Sum(counts[i := counts[i] + 1]) == Sum(counts) + 1
  {
    if i > 0 {
      assert counts[i := counts[i] + 1][1..] == counts[1..][i - 1 := counts[1..][i - 1] + 1];
      SumIncrement(counts[1..], i - 1);
    } else {
      assert counts[0 := counts[0] + 1][1..] == counts[1..];
    }
  }

  lemma {:induction false} RoundSnoc<T>(buckets: seq<seq<T>>, bucket: seq<T>, cap: nat, r: nat)
    ensures Round(buckets + [bucket], cap, r)
            == Round(buckets, cap, r) + Deal(bucket, cap, r)
  {
    hide Deal;
    if buckets == [] {
      assert buckets + [bucket] == [bucket];
    } else {
      assert (buckets + [bucket])[1..] == buckets[1..] + [bucket];
      RoundSnoc(buckets[1..], bucket, cap, r);
    }
  }

  // ----- Where the loop stands -----

  /** In round `r`, with the first `j` buckets already visited. */
  ghost predicate Standing<T>(buckets: seq<seq<T>>, cap: nat, counts: seq<nat>, r: nat, j: nat) {
    && |counts| == |buckets|
    && j <= |buckets|
    && forall i | 0 <= i < |buckets| :: counts[i] == Min(Limit(buckets[i], cap), if i < j then r + 1 else r)
  }

  /** The loop's whole state at that point. */
  ghost predicate InRound<T>(buckets: seq<seq<T>>, cap: nat, r: nat, j: nat,
                             remaining: seq<seq<T>>, counts: seq<nat>, selected: seq<T>)
  {
    && Standing(buckets, cap, counts, r, j)
    && |remaining| == |buckets|
    && (forall i | 0 <= i < |buckets| :: counts[i] <= |buckets[i]| && remaining[i] == buckets[i][counts[i]..])
    && selected == Rounds(buckets, cap, r) + Round(buckets[..j], cap, r)
    && |selected| == Sum(counts)
  }

  lemma Start<T>(buckets: seq<seq<T>>, cap: nat, counts: seq<nat>)
    requires |counts| == |buckets| && forall i | 0 <= i < |counts| :: counts[i] == 0
    ensures InRound(buckets, cap, 0, 0, buckets, counts, [])
  {
    SumZero(counts);
  }

  /** Whether bucket `j` has an item to give. */
  predicate CanDeal<T>(cap: nat, remaining: seq<seq<T>>, counts: seq<nat>, j: nat) {
    j < |remaining| == |counts| && counts[j] < cap && remaining[j] != []
  }

  lemma Visit<T>(buckets: seq<seq<T>>, cap: nat, r: nat, j: nat,
                 remaining: seq<seq<T>>, counts: seq<nat>, selected: seq<T>)
    requires InRound(buckets, cap, r, j, remaining, counts, selected) && j < |buckets|
    ensures j < |remaining| == |counts|
    ensures if CanDeal(cap, remaining, counts, j) then
              InRound(buckets, cap, r, j + 1, remaining[j := remaining[j][1..]], counts[j := counts[j] + 1],
                      selected + [remaining[j][0]])
            else
              InRound(buckets, cap, r, j + 1, remaining, counts, selected)
  {
    RoundGrows(buckets, cap, r, j);
    SumIncrement(counts, j);
    StandingStep(buckets, cap, counts, r, j);
    assert CanDeal(cap, remaining, counts, j) <==> r < Limit(buckets[j], cap);
    hide Standing, Limit, Round, Rounds, Sum;
    if CanDeal(cap, remaining, counts, j) {
      assert remaining[j][0] == buckets[j][r];
      assert remaining[j][1..] == buckets[j][counts[j] + 1..];
    }
  }

  lemma RoundGrows<T>(buckets: seq<seq<T>>, cap: nat, r: nat, j: nat)
    requires j < |buckets|
    ensures Round(buckets[..j + 1], cap, r)
            == Round(buckets[..j], cap, r) + Deal(buckets[j], cap, r)
  {
    assert buckets[..j + 1] == buckets[..j] + [buckets[j]];
    RoundSnoc(buckets[..j], buckets[j], cap, r);
  }

  lemma StandingStep<T>(buckets: seq<seq<T>>, cap: nat, counts: seq<nat>, r: nat, j: nat)
    requires Standing(buckets, cap, counts, r, j) && j < |buckets|
    ensures if r < Limit(buckets[j], cap) then
              counts[j] == r && Standing(buckets, cap, counts[j := counts[j] + 1], r, j + 1)
            else
              counts[j] == Limit(buckets[j], cap) && Standing(buckets, cap, counts, r, j + 1)
  {
  }

  lemma NextRound<T>(buckets: seq<seq<T>>, cap: nat, r: nat,
                     remaining: seq<seq<T>>, counts: seq<nat>, selected: seq<T>)
    requires InRound(buckets, cap, r, |buckets|, remaining, counts, selected)
    ensures InRound(buckets, cap, r + 1, 0, remaining, counts, selected)
    ensures |selected| == |Rounds(buckets, cap, r)| ==> Round(buckets, cap, r) == []
  {
    assert buckets[..|buckets|] == buckets;
    assert Rounds(buckets, cap, r + 1) == Rounds(buckets, cap, r) + Round(buckets, cap, r);
    assert Round(buckets[..0], cap, r + 1) == [];
    StandingNext(buckets, cap, counts, r);
    hide Standing, Limit, Round, Rounds, Sum;
  }

  lemma StandingNext<T>(buckets: seq<seq<T>>, cap: nat, counts: seq<nat>, r: nat)
    requires Standing(buckets, cap, counts, r, |buckets|)
    ensures Standing(buckets, cap, counts, r + 1, 0)
  {
  }

  /** A round that deals nothing leaves every bucket at its limit. */
  lemma {:induction false} EmptyRound<T>(buckets: seq<seq<T>>, cap: nat, r: nat)
    requires Round(buckets, cap, r) == []
    ensures forall i | 0 <= i < |buckets| :: Limit(buckets[i], cap) <= r
  {
    if buckets != [] {
      EmptyRound(buckets[1..], cap, r);
      assert forall i | 1 <= i < |buckets| :: buckets[i] == buckets[1..][i - 1];
    }
  }

  lemma {:induction false} LateRound<T>(buckets: seq<seq<T>>, cap: nat, r: nat)
    requires forall i | 0 <= i < |buckets| :: Limit(buckets[i], cap) <= r
    ensures Round(buckets, cap, r) == []
  {
    if buckets != [] {
      LateRound(buckets[1..], cap, r);
    }
  }

  lemma {:induction false} RoundsStop<T>(buckets: seq<seq<T>>, cap: nat, r: nat, later: nat)
    requires r <= later && forall i | 0 <= i < |buckets| :: Limit(buckets[i], cap) <= r
    ensures Rounds(buckets, cap, later) == Rounds(buckets, cap, r)
    decreases later
  {
    if r < later {
      RoundsStop(buckets, cap, r, later - 1);
      LateRound(buckets, cap, later - 1);
    }
  }

  lemma {:induction false} RoundsPrefix<T>(buckets: seq<seq<T>>, cap: nat, r: nat, later: nat)
    requires r <= later
    ensures Rounds(buckets, cap, r) <= Rounds(buckets, cap, later)
    decreases later
  {
    if r < later {
      RoundsPrefix(buckets, cap, r, later - 1);
    }
  }

  lemma {:induction false} RoundPrefix<T>(buckets: seq<seq<T>>, cap: nat, r: nat, j: nat)
    requires j <= |buckets|
    ensures Round(buckets[..j], cap, r) <= Round(buckets, cap, r)
  {
    if j > 0 {
      RoundPrefix(buckets[1..], cap, r, j - 1);
      assert buckets[..j][1..] == buckets[1..][..j - 1];
    }
  }

  // ----- The loop -----

  /** The loop stopped in round `r` after visiting `j` buckets. */
  ghost predicate StoppedAt<T>(buckets: seq<seq<T>>, cap: nat, selected: seq<T>, counts: seq<nat>, r: nat, j: nat) {
    Standing(buckets, cap, counts, r, j) && selected == Rounds(buckets, cap, r) + Round(buckets[..j], cap, r)
  }

  /** What the loop leaves behind. */
  ghost predicate Dealt<T>(buckets: seq<seq<T>>, budget: nat, cap: nat, selected: seq<T>, counts: seq<nat>) {
    && selected == Schedule(buckets, cap)[..Min(budget, |Schedule(buckets, cap)|)]
    && |counts| == |buckets| && |selected| == Sum(counts)
    && (exists r: nat, j: nat :: StoppedAt(buckets, cap, selected, counts, r, j))
    && (|selected| == budget || forall i | 0 <= i < |buckets| :: counts[i] == Limit(buckets[i], cap))
  }

  /** Pops one item from each bucket in turn until the budget is spent or a whole round deals nothing. */
  method Select<T>(buckets: seq<seq<T>>, budget: nat, cap: nat) returns (selected: seq<T>, counts: seq<nat>)
    ensures Dealt(buckets, budget, cap, selected, counts)
  {
    hide *;
    selected, counts := [], seq(|buckets|, _ => 0);
    var remaining := buckets;
    ghost var r := 0;
    Start(buckets, cap, counts);
    OutOfBudget(buckets, cap, 0, 0, remaining, counts, selected, budget);
    while |selected| < budget
      invariant InRound(buckets, cap, r, 0, remaining, counts, selected) && |selected| <= budget
      invariant |selected| == budget ==> Dealt(buckets, budget, cap, selected, counts)
      decreases budget - |selected|
    {
      ghost var j;
      ghost var before := selected;
      BeforeRound(buckets, cap, r, remaining, counts, selected);
      var progressed;
      remaining, counts, selected, progressed, j := DealRound(buckets, budget, cap, r, remaining, counts, selected);
      OutOfBudget(buckets, cap, r, j, remaining, counts, selected, budget);
      if |selected| == budget {
        break;
      }
      NextRound(buckets, cap, r, remaining, counts, selected);
      if !progressed {
        assert selected == before;
        NothingLeft(buckets, cap, r, remaining, counts, selected, budget);
        break;
      }
      r := r + 1;
    }
  }

  lemma BeforeRound<T>(buckets: seq<seq<T>>, cap: nat, r: nat,
                       remaining: seq<seq<T>>, counts: seq<nat>, selected: seq<T>)
    requires InRound(buckets, cap, r, 0, remaining, counts, selected)
    ensures selected == Rounds(buckets, cap, r)
  {
    assert buckets[..0] == [];
  }

  /** One pass over the buckets, broken off when the budget is spent. */
  method DealRound<T>(ghost buckets: seq<seq<T>>, budget: nat, cap: nat, ghost r: nat,
                      remaining0: seq<seq<T>>, counts0: seq<nat>, selected0: seq<T>)
    returns (remaining: seq<seq<T>>, counts: seq<nat>, selected: seq<T>, progressed: bool, ghost j: nat)
    requires InRound(buckets, cap, r, 0, remaining0, counts0, selected0) && |selected0| <= budget
    ensures j <= |buckets| && InRound(buckets, cap, r, j, remaining, counts, selected)
    ensures j == |buckets| || |selected| == budget
    ensures |selected| <= budget && (if progressed then |selected0| < |selected| else selected == selected0)
  {
    hide *;
    remaining, counts, selected, progressed := remaining0, counts0, selected0, false;
    SameLength(buckets, cap, r, 0, remaining, counts, selected);
    var i := 0;
    while i < |remaining| && |selected| < budget
      invariant i <= |remaining| == |counts| == |buckets| && InRound(buckets, cap, r, i, remaining, counts, selected)
      invariant |selected| <= budget && (if progressed then |selected0| < |selected| else selected == selected0)
    {
      Visit(buckets, cap, r, i, remaining, counts, selected);
      CanDealIs(cap, remaining, counts, i);
      if counts[i] < cap && remaining[i] != [] {
        selected := selected + [remaining[i][0]];
        remaining := remaining[i := remaining[i][1..]];
        counts := counts[i := counts[i] + 1];
        progressed := true;
      }
      i := i + 1;
    }
    j := i;
  }

  lemma CanDealIs<T>(cap: nat, remaining: seq<seq<T>>, counts: seq<nat>, i: nat)
    requires i < |remaining| == |counts|
    ensures CanDeal(cap, remaining, counts, i) <==> counts[i] < cap && remaining[i] != []
  {
  }

  lemma SameLength<T>(buckets: seq<seq<T>>, cap: nat, r: nat, j: nat,
                      remaining: seq<seq<T>>, counts: seq<nat>, selected: seq<T>)
    requires InRound(buckets, cap, r, j, remaining, counts, selected)
    ensures |remaining| == |counts| == |buckets|
  {
  }

  lemma OutOfBudget<T>(buckets: seq<seq<T>>, cap: nat, r: nat, j: nat,
                       remaining: seq<seq<T>>, counts: seq<nat>, selected: seq<T>, budget: nat)
    requires InRound(buckets, cap, r, j, remaining, counts, selected)
    ensures |selected| == budget ==> Dealt(buckets, budget, cap, selected, counts)
  {
    DealtIsPrefix(buckets, cap, r, j);
    assert StoppedAt(buckets, cap, selected, counts, r, j);
  }

  /** What is dealt so far begins the schedule. */
  lemma DealtIsPrefix<T>(buckets: seq<seq<T>>, cap: nat, r: nat, j: nat)
    requires j <= |buckets|
    ensures Rounds(buckets, cap, r) + Round(buckets[..j], cap, r) <= Schedule(buckets, cap)
  {
    hide Rounds, Round, Limit;
    if r < cap {
      RoundPrefix(buckets, cap, r, j);
      RoundsPrefix(buckets, cap, r + 1, cap);
      RoundsNext(buckets, cap, r);
      PrefixOfSum(Rounds(buckets, cap, r), Round(buckets[..j], cap, r), Round(buckets, cap, r), Rounds(buckets, cap, cap));
    } else {
      LimitsBelow(buckets, cap, r);
      LateRound(buckets[..j], cap, r);
      RoundsStop(buckets, cap, cap, r);
    }
  }

  lemma RoundsNext<T>(buckets: seq<seq<T>>, cap: nat, r: nat)
    ensures Rounds(buckets, cap, r + 1) == Rounds(buckets, cap, r) + Round(buckets, cap, r)
  {
  }

  lemma RoundSplit<T>(buckets: seq<seq<T>>, cap: nat, r: nat)
    requires buckets != []
    ensures Round(buckets, cap, r) == Deal(buckets[0], cap, r) + Round(buckets[1..], cap, r)
  {
  }

  lemma LimitsBelow<T>(buckets: seq<seq<T>>, cap: nat, r: nat)
    requires cap <= r
    ensures forall i | 0 <= i < |buckets| :: Limit(buckets[i], cap) <= cap <= r
  {
  }

  lemma PrefixOfSum<T>(a: seq<T>, b: seq<T>, c: seq<T>, whole: seq<T>)
    requires b <= c && a + c <= whole
    ensures a + b <= whole
  {
    assert whole[..|a| + |b|] == (a + c)[..|a| + |b|] == a + b;
  }

  /** After a round without progress the whole schedule has been dealt. */
  lemma NothingLeft<T>(buckets: seq<seq<T>>, cap: nat, r: nat,
                       remaining: seq<seq<T>>, counts: seq<nat>, selected: seq<T>, budget: nat)
    requires InRound(buckets, cap, r + 1, 0, remaining, counts, selected)
    requires Round(buckets, cap, r) == [] && |selected| < budget
    ensures Dealt(buckets, budget, cap, selected, counts)
  {
    EmptyRound(buckets, cap, r);
    assert selected == Rounds(buckets, cap, r);
    if r <= cap {
      RoundsStop(buckets, cap, r, cap);
    } else {
      RoundsStop(buckets, cap, cap, r);
    }
    assert selected == Schedule(buckets, cap);
    assert StoppedAt(buckets, cap, selected, counts, r + 1, 0);
  }

  lemma {:induction false} SumZero(counts: seq<nat>)
    requires forall i | 0 <= i < |counts| :: counts[i] == 0
    ensures Sum(counts) == 0
  {
    if counts != [] {
      SumZero(counts[1..]);
    }
  }

  // ----- What round-robin selection guarantees -----

  lemma {:induction false} LimitsBound<T>(buckets: seq<seq<T>>, cap: nat, counts: seq<nat>)
    requires |counts| == |buckets| && forall i | 0 <= i < |counts| :: counts[i] <= Limit(buckets[i], cap)
    ensures Sum(counts) <= SumLimits(buckets, cap)
    ensures (forall i | 0 <= i < |counts| :: counts[i] == Limit(buckets[i], cap)) ==> Sum(counts) == SumLimits(buckets, cap)
  {
    if counts != [] {
      LimitsBound(buckets[1..], cap, counts[1..]);
    }
  }

  /** As many items as the budget and the caps allow. */
  lemma SelectedTotal<T>(buckets: seq<seq<T>>, budget: nat, cap: nat, selected: seq<T>, counts: seq<nat>)
    requires Dealt(buckets, budget, cap, selected, counts)
    ensures |selected| == Min(budget, SumLimits(buckets, cap))
  {
    hide Schedule;
    var r: nat, j: nat :| StoppedAt(buckets, cap, selected, counts, r, j);
    LimitsBound(buckets, cap, counts);
  }

  /** A bucket that could still give is at most one item behind any other, and not behind a later one. */
  lemma SelectedFairly<T>(buckets: seq<seq<T>>, budget: nat, cap: nat, selected: seq<T>, counts: seq<nat>, i: nat, k: nat)
    requires Dealt(buckets, budget, cap, selected, counts) && i < |buckets| && k < |buckets|
    requires counts[i] < Limit(buckets[i], cap)
    ensures counts[k] <= counts[i] + (if k < i then 1 else 0)
  {
    hide Schedule, Rounds, Round, Sum;
    var r: nat, j: nat :| StoppedAt(buckets, cap, selected, counts, r, j);
  }

  /** Every bucket is served before any is served twice: the number of buckets served is as large as it can be. */
  lemma BucketsServed<T>(buckets: seq<seq<T>>, budget: nat, cap: nat, selected: seq<T>, counts: seq<nat>)
    requires Dealt(buckets, budget, cap, selected, counts) && cap > 0
    requires forall i | 0 <= i < |buckets| :: buckets[i] != []
    ensures Positive(counts) == Min(budget, |buckets|)
  {
    hide Schedule, Rounds, Round;
    var r: nat, j: nat :| StoppedAt(buckets, cap, selected, counts, r, j);
    PositiveCount(counts, if r == 0 then j else |counts|);
    if r == 0 {
      FirstRoundSum(counts, j);
      assert j < |buckets| ==> buckets[j] != [];
    } else {
      AllServedSum(counts);
    }
  }

  lemma {:induction false} PositiveCount(counts: seq<nat>, j: nat)
    requires j <= |counts| && forall i | 0 <= i < |counts| :: counts[i] > 0 <==> i < j
    ensures Positive(counts) == j
  {
    if counts != [] {
      assert counts[0] > 0 <==> 0 < j;
      assert forall i | 0 <= i < |counts[1..]| :: counts[1..][i] == counts[i + 1];
      PositiveCount(counts[1..], if j > 0 then j - 1 else 0);
    }
  }

  lemma {:induction false} FirstRoundSum(counts: seq<nat>, j: nat)
    requires j <= |counts| && forall i | 0 <= i < |counts| :: counts[i] == if i < j then 1 else 0
    ensures Sum(counts) == j
  {
    if counts != [] {
      assert forall i | 0 <= i < |counts[1..]| :: counts[1..][i] == counts[i + 1];
      FirstRoundSum(counts[1..], if j > 0 then j - 1 else 0);
    }
  }

  lemma {:induction false} AllServedSum(counts: seq<nat>)
    requires forall i | 0 <= i < |counts| :: counts[i] > 0
    ensures Sum(counts) >= |counts|
  {
    if counts != [] {
      AllServedSum(counts[1..]);
    }
  }

  /** Bucket `i` holds exactly items tagged `tags[i]`. */
  ghost predicate TaggedBuckets<T, K>(buckets: seq<seq<T>>, tag: T -> K, tags: seq<K>) {
    && |tags| == |buckets|
    && (forall i, k | 0 <= i < k < |tags| :: tags[i] != tags[k])
    && (forall i, x | 0 <= i < |buckets| && 0 <= x < |buckets[i]| :: tag(buckets[i][x]) == tags[i])
  }

  /** A round deals nothing under a tag no bucket has. */
  lemma {:induction false} RoundUntagged<T, K>(buckets: seq<seq<T>>, cap: nat, r: nat, tag: T -> K, tags: seq<K>, t: K)
    requires TaggedBuckets(buckets, tag, tags) && t !in tags
    ensures Tagged(Round(buckets, cap, r), tag, t) == []
  {
    if buckets != [] {
      hide *;
      TailTagged(buckets, tag, tags);
      assert tags == [tags[0]] + tags[1..];
      RoundUntagged(buckets[1..], cap, r, tag, tags[1..], t);
      RoundSplit(buckets, cap, r);
      TaggedAppend(Deal(buckets[0], cap, r), Round(buckets[1..], cap, r), tag, t);
      DealTagged(buckets, cap, r, tag, tags, t);
    }
  }

  /** A round deals, under a bucket's tag, what that bucket gives. */
  lemma {:induction false} RoundTagged<T, K>(buckets: seq<seq<T>>, cap: nat, r: nat, tag: T -> K, tags: seq<K>, i: nat)
    requires TaggedBuckets(buckets, tag, tags) && i < |buckets|
    ensures |tags| == |buckets| && Tagged(Round(buckets, cap, r), tag, tags[i]) == Deal(buckets[i], cap, r)
  {
    TagsLength(buckets, tag, tags);
    hide *;
    var rest, t := buckets[1..], tags[i];
    TailTagged(buckets, tag, tags);
    RoundSplit(buckets, cap, r);
    TaggedAppend(Deal(buckets[0], cap, r), Round(rest, cap, r), tag, t);
    DealTagged(buckets, cap, r, tag, tags, t);
    if i == 0 {
      RoundUntagged(rest, cap, r, tag, tags[1..], t);
    } else {
      assert tags[1..][i - 1] == t && rest[i - 1] == buckets[i] && t in tags[1..];
      RoundTagged(rest, cap, r, tag, tags[1..], i - 1);
    }
  }

  lemma TailTagged<T, K>(buckets: seq<seq<T>>, tag: T -> K, tags: seq<K>)
    requires TaggedBuckets(buckets, tag, tags) && buckets != []
    ensures TaggedBuckets(buckets[1..], tag, tags[1..]) && tags != [] && tags[0] !in tags[1..]
  {
  }

  lemma DealTagged<T, K>(buckets: seq<seq<T>>, cap: nat, r: nat, tag: T -> K, tags: seq<K>, t: K)
    requires TaggedBuckets(buckets, tag, tags) && buckets != []
    ensures tags != [] && Tagged(Deal(buckets[0], cap, r), tag, t) == if t == tags[0] then Deal(buckets[0], cap, r) else []
  {
    assert r < |buckets[0]| ==> tag(buckets[0][r]) == tags[0];
  }

  lemma TagsLength<T, K>(buckets: seq<seq<T>>, tag: T -> K, tags: seq<K>)
    requires TaggedBuckets(buckets, tag, tags)
    ensures |tags| == |buckets|
  {
  }

  lemma NoRounds<T, K>(buckets: seq<seq<T>>, cap: nat, tag: T -> K, tags: seq<K>, i: nat)
    requires i < |buckets| == |tags|
    ensures Tagged(Rounds(buckets, cap, 0), tag, tags[i]) == buckets[i][..Min(Limit(buckets[i], cap), 0)]
  {
  }

  lemma {:induction false} RoundsTagged<T, K>(buckets: seq<seq<T>>, cap: nat, rounds: nat, tag: T -> K, tags: seq<K>, i: nat)
    requires TaggedBuckets(buckets, tag, tags) && i < |buckets|
    ensures Tagged(Rounds(buckets, cap, rounds), tag, tags[i]) == buckets[i][..Min(Limit(buckets[i], cap), rounds)]
  {
    hide *;
    TagsLength(buckets, tag, tags);
    if rounds == 0 {
      NoRounds(buckets, cap, tag, tags, i);
    } else {
      var sofar, round := Rounds(buckets, cap, rounds - 1), Round(buckets, cap, rounds - 1);
      RoundsNext(buckets, cap, rounds - 1);
      RoundsTagged(buckets, cap, rounds - 1, tag, tags, i);
      RoundTagged(buckets, cap, rounds - 1, tag, tags, i);
      TaggedAppend(sofar, round, tag, tags[i]);
      OneMore(buckets[i], cap, rounds - 1);
    }
  }

  lemma {:induction false} RoundsUntagged<T, K>(buckets: seq<seq<T>>, cap: nat, rounds: nat, tag: T -> K, tags: seq<K>, t: K)
    requires TaggedBuckets(buckets, tag, tags) && t !in tags
    ensures Tagged(Rounds(buckets, cap, rounds), tag, t) == []
  {
    hide Round, TaggedBuckets;
    if rounds > 0 {
      RoundsUntagged(buckets, cap, rounds - 1, tag, tags, t);
      RoundUntagged(buckets, cap, rounds - 1, tag, tags, t);
      TaggedAppend(Rounds(buckets, cap, rounds - 1), Round(buckets, cap, rounds - 1), tag, t);
    }
  }

  /** Nothing is selected that no bucket holds. */
  lemma SelectedNothingElse<T, K>(buckets: seq<seq<T>>, budget: nat, cap: nat, selected: seq<T>, counts: seq<nat>,
                                  tag: T -> K, tags: seq<K>, t: K)
    requires Dealt(buckets, budget, cap, selected, counts) && TaggedBuckets(buckets, tag, tags) && t !in tags
    ensures Tagged(selected, tag, t) == []
  {
    assert selected <= Rounds(buckets, cap, cap);
    hide *;
    RoundsUntagged(buckets, cap, cap, tag, tags, t);
    PrefixUntagged(selected, Rounds(buckets, cap, cap), tag, t);
  }

  lemma PrefixUntagged<T, K>(some: seq<T>, all: seq<T>, tag: T -> K, t: K)
    requires some <= all && Tagged(all, tag, t) == []
    ensures Tagged(some, tag, t) == []
  {
    hide *;
    assert all == some + all[|some|..];
    TaggedAppend(some, all[|some|..], tag, t);
  }

  lemma OneMore<T>(bucket: seq<T>, cap: nat, r: nat)
    ensures bucket[..Min(Limit(bucket, cap), r)] + Deal(bucket, cap, r)
            == bucket[..Min(Limit(bucket, cap), r + 1)]
  {
  }

  lemma TaggedTake<T, K>(buckets: seq<seq<T>>, j: nat, tag: T -> K, tags: seq<K>, i: nat)
    requires TaggedBuckets(buckets, tag, tags) && j <= |buckets| && i < |tags|
    ensures TaggedBuckets(buckets[..j], tag, tags[..j])
    ensures if i < j then tags[..j][i] == tags[i] else tags[i] !in tags[..j]
  {
  }

  /** Each bucket contributes its first items, in their order. */
  lemma SelectedPrefixes<T, K>(buckets: seq<seq<T>>, budget: nat, cap: nat, selected: seq<T>, counts: seq<nat>,
                               tag: T -> K, tags: seq<K>, i: nat)
    requires Dealt(buckets, budget, cap, selected, counts) && TaggedBuckets(buckets, tag, tags) && i < |buckets|
    ensures |counts| == |buckets| == |tags| && counts[i] <= Limit(buckets[i], cap) <= |buckets[i]|
    ensures Tagged(selected, tag, tags[i]) == buckets[i][..counts[i]]
  {
    assert |tags| == |buckets|;
    hide *;
    StoppedWhere(buckets, budget, cap, selected, counts);
    var r: nat, j: nat :| StoppedAt(buckets, cap, selected, counts, r, j);
    StoppedMeans(buckets, cap, selected, counts, r, j, i);
    TaggedTake(buckets, j, tag, tags, i);
    RoundsTagged(buckets, cap, r, tag, tags, i);
    if i < j {
      RoundTagged(buckets[..j], cap, r, tag, tags[..j], i);
      assert buckets[..j][i] == buckets[i];
    } else {
      RoundUntagged(buckets[..j], cap, r, tag, tags[..j], tags[i]);
    }
    TaggedAppend(Rounds(buckets, cap, r), Round(buckets[..j], cap, r), tag, tags[i]);
    OneMore(buckets[i], cap, r);
  }

  lemma StoppedWhere<T>(buckets: seq<seq<T>>, budget: nat, cap: nat, selected: seq<T>, counts: seq<nat>)
    requires Dealt(buckets, budget, cap, selected, counts)
    ensures exists r: nat, j: nat :: StoppedAt(buckets, cap, selected, counts, r, j)
  {
  }

  lemma StoppedMeans<T>(buckets: seq<seq<T>>, cap: nat, selected: seq<T>, counts: seq<nat>, r: nat, j: nat, i: nat)
    requires StoppedAt(buckets, cap, selected, counts, r, j) && i < |buckets|
    ensures |counts| == |buckets| && j <= |buckets| && counts[i] <= Limit(buckets[i], cap) <= |buckets[i]|
    ensures selected == Rounds(buckets, cap, r) + Round(buckets[..j], cap, r)
    ensures counts[i] == Min(Limit(buckets[i], cap), if i < j then r + 1 else r)
  {
  }

  /** The first item selected is the first item of the first bucket. */
  lemma SelectedFirst<T>(buckets: seq<seq<T>>, budget: nat, cap: nat, selected: seq<T>, counts: seq<nat>)
    requires Dealt(buckets, budget, cap, selected, counts) && budget > 0 && cap > 0
    requires buckets != [] && buckets[0] != []
    ensures selected != [] && selected[0] == buckets[0][0]
  {
    var all := Rounds(buckets, cap, cap);
    assert all != [] ==> selected != [] && selected[0] == all[0];
    assert Rounds(buckets, cap, 1) == [] + Round(buckets, cap, 0);
    assert Deal(buckets[0], cap, 0) == [buckets[0][0]];
    hide *;
    RoundsPrefix(buckets, cap, 1, cap);
    RoundSplit(buckets, cap, 0);
  }
}
