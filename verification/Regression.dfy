/** Pairing the trials of two benchmark reports, and the counters of new and resolved failures. */
module Regression {
  import opened Prelude
  import opened Grouping
  import opened Ordering
  import opened Rounding
  import ChallengeSet

  datatype Key = Key(taskId: string, trial: int)

  datatype Trial = Trial(key: Key, traceId: Option<string>, passed: bool, score: Option<real>, latencyMs: Option<nat>,
                         failures: seq<string>)

  /** `{(item.task_id, item.trial): item for item in trials}`: the last trial of a key wins. */
  function Index(trials: seq<Trial>): (index: map<Key, Trial>)
    ensures forall k :: k in index <==> exists t | t in trials :: t.key == k
  {
    if trials == [] then map[]
    else
      var last := trials[|trials| - 1];
      assert trials == trials[..|trials| - 1] + [last];
      Index(trials[..|trials| - 1])[last.key := last]
  }

  predicate KeyLe(a: Key, b: Key) {
    StrLt(a.taskId, b.taskId) || (a.taskId == b.taskId && a.trial <= b.trial)
  }

  lemma KeyLeTotal()
    ensures TotalPreorder(KeyLe)
    ensures forall a, b :: KeyLe(a, b) && KeyLe(b, a) ==> a == b
  {
    forall a, b ensures KeyLe(a, b) || KeyLe(b, a)
      ensures KeyLe(a, b) && KeyLe(b, a) ==> a == b
    {
      StrLtTrichotomy(a.taskId, b.taskId);
    }
    forall a, b, c ensures KeyLe(a, b) && KeyLe(b, c) ==> KeyLe(a, c) {
      if StrLt(a.taskId, b.taskId) && StrLt(b.taskId, c.taskId) {
        StrLtTransitive(a.taskId, b.taskId, c.taskId);
      }
    }
  }

  function KeysOf(trials: seq<Trial>): seq<Key> {
    Distinct(seq(|trials|, i requires 0 <= i < |trials| => trials[i].key))
  }

  /** `sorted(index)`. */
  function SortedKeys(trials: seq<Trial>): seq<Key> {
    SortBy(KeysOf(trials), KeyLe)
  }

  /** `tuple(sorted(set(a) - set(b)))`. */
  function Minus(a: seq<string>, b: seq<string>): seq<string> {
    SortBy(ChallengeSet.Without(Distinct(a), b), StrLe)
  }

  /** A candidate trial and the baseline trial it is compared with. */
  datatype Pair = Pair(key: Key, base: Trial, cand: Trial, scoreDelta: Option<real>,
                       added: seq<string>, resolved: seq<string>, safety: nat)

  function SafetyCount(categories: seq<string>): nat {
    if categories == [] then 0
    else (if categories[0] in ChallengeSet.SAFETY_FAILURES then 1 else 0) + SafetyCount(categories[1..])
  }

  function PairOf(base: Trial, cand: Trial): Pair {
    var added := Minus(cand.failures, base.failures);
    Pair(cand.key, base, cand,
         if base.score.Some? && cand.score.Some? then Some(Round4(cand.score.value - base.score.value)) else None,
         added, Minus(base.failures, cand.failures), SafetyCount(added))
  }

  /** The keys both reports have, in order. */
  function PairedKeys(keys: seq<Key>, base: map<Key, Trial>): (paired: seq<Key>)
    ensures forall k :: k in paired <==> k in keys && k in base
  {
    if keys == [] then []
    else
      assert keys == [keys[0]] + keys[1..];
      (if keys[0] in base then [keys[0]] else []) + PairedKeys(keys[1..], base)
  }

  function PairsOf(keys: seq<Key>, base: map<Key, Trial>, cand: map<Key, Trial>): (pairs: seq<Pair>)
    requires forall k | k in keys :: k in base && k in cand
    ensures |pairs| == |keys|
  {
    seq(|keys|, i requires 0 <= i < |keys| => PairOf(base[keys[i]], cand[keys[i]]))
  }

  // ----- Counters -----

  type Counter = map<string, nat>

  /** `counter[category]` of a `collections.Counter`. */
  function Tally(counter: Counter, category: string): nat {
    if category in counter then counter[category] else 0
  }

  /** `counter.update(categories)`. */
  method Update(counter: Counter, categories: seq<string>) returns (updated: Counter)
    ensures forall c :: Tally(updated, c) == Tally(counter, c) + multiset(categories)[c]
  {
    updated := counter;
    for i := 0 to |categories|
      invariant forall c :: Tally(updated, c) == Tally(counter, c) + multiset(categories[..i])[c]
    {
      assert categories[..i + 1] == categories[..i] + [categories[i]];
      updated := updated[categories[i] := Tally(updated, categories[i]) + 1];
    }
    assert categories[..|categories|] == categories;
  }

  function CountIn(pairs: seq<Pair>, category: string, added: bool): nat {
    if pairs == [] then 0
    else (if category in (if added then pairs[0].added else pairs[0].resolved) then 1 else 0)
         + CountIn(pairs[1..], category, added)
  }

  function SafetyTotal(pairs: seq<Pair>): nat {
    if pairs == [] then 0 else pairs[0].safety + SafetyTotal(pairs[1..])
  }

  datatype Comparison = Comparison(pairs: seq<Pair>, missing: seq<Key>, added: Counter, resolved: Counter, safety: nat)

  function Unpaired(keys: seq<Key>, base: map<Key, Trial>): seq<Key> {
    if keys == [] then [] else (if keys[0] in base then [] else [keys[0]]) + Unpaired(keys[1..], base)
  }

  /** What the comparison of two reports is, as a function of their trials. */
  ghost predicate Compares(baseline: seq<Trial>, candidate: seq<Trial>, r: Comparison) {
    && r.pairs == Pairs(baseline, candidate)
    && r.missing == Unpaired(KeysOf(candidate), Index(baseline))
    && (forall c :: Tally(r.added, c) == CountIn(r.pairs, c, true))
    && (forall c :: Tally(r.resolved, c) == CountIn(r.pairs, c, false))
    && r.safety == SafetyTotal(r.pairs)
  }

  function Paired(baseline: seq<Trial>, candidate: seq<Trial>): seq<Key> {
    PairedKeys(SortedKeys(candidate), Index(baseline))
  }

  function Pairs(baseline: seq<Trial>, candidate: seq<Trial>): seq<Pair> {
    PairedKnown(baseline, candidate);
    PairsOf(Paired(baseline, candidate), Index(baseline), Index(candidate))
  }

  lemma PairedKnown(baseline: seq<Trial>, candidate: seq<Trial>)
    ensures forall k :: k in SortedKeys(candidate) <==> k in Index(candidate)
    ensures forall k | k in Paired(baseline, candidate) :: k in Index(baseline) && k in Index(candidate)
  {
    hide Index, KeyLe;
    PermutationFacts(SortedKeys(candidate), KeysOf(candidate));
    var keys := seq(|candidate|, i requires 0 <= i < |candidate| => candidate[i].key);
    forall k ensures k in keys <==> k in Index(candidate) {
      if k in Index(candidate) {
        var i :| 0 <= i < |candidate| && candidate[i].key == k;
        assert keys[i] == k;
      }
    }
  }

  // ----- The pairing loop -----

  ghost predicate Counted(pairs: seq<Pair>, added: Counter, resolved: Counter, safety: nat) {
    && (forall c :: Tally(added, c) == CountIn(pairs, c, true))
    && (forall c :: Tally(resolved, c) == CountIn(pairs, c, false))
    && safety == SafetyTotal(pairs)
  }

  method Compare(baseline: seq<Trial>, candidate: seq<Trial>) returns (r: Comparison)
    ensures Compares(baseline, candidate, r)
  {
    hide *;
    var base, cand := Index(baseline), Index(candidate);
    var order := SortedKeys(candidate);
    PairedKnown(baseline, candidate);
    var pairs: seq<Pair> := [];
    var added: Counter, resolved: Counter, safety: nat := map[], map[], 0;
    NothingCounted(order, base, cand);
    for i := 0 to |order|
      invariant Counted(pairs, added, resolved, safety)
      invariant forall k | k in PairedKeys(order[..i], base) :: k in base && k in cand
      invariant pairs == PairsOf(PairedKeys(order[..i], base), base, cand)
    {
      var key := order[i];
      PairedNext(order, i, base, cand);
      if key in base {
        var pair := PairOf(base[key], cand[key]);
        var added' := Update(added, pair.added);
        var resolved' := Update(resolved, pair.resolved);
        CountNext(pairs, added, resolved, safety, base[key], cand[key], added', resolved');
        added, resolved, safety := added', resolved', safety + pair.safety;
        pairs := pairs + [pair];
      }
    }
    assert order[..|order|] == order;
    r := Comparison(pairs, Unpaired(KeysOf(candidate), base), added, resolved, safety);
    Compared(baseline, candidate, r);
  }

  lemma NothingCounted(order: seq<Key>, base: map<Key, Trial>, cand: map<Key, Trial>)
    ensures Counted([], map[], map[], 0) && PairedKeys(order[..0], base) == [] && PairsOf([], base, cand) == []
  {
  }

  lemma Compared(baseline: seq<Trial>, candidate: seq<Trial>, r: Comparison)
    requires forall k | k in PairedKeys(SortedKeys(candidate), Index(baseline)) :: k in Index(baseline) && k in Index(candidate)
    requires r.pairs == PairsOf(PairedKeys(SortedKeys(candidate), Index(baseline)), Index(baseline), Index(candidate))
    requires Counted(r.pairs, r.added, r.resolved, r.safety)
    requires r.missing == Unpaired(KeysOf(candidate), Index(baseline))
    ensures Compares(baseline, candidate, r)
  {
    hide Tally, CountIn, SafetyTotal, Index, SortedKeys, PairedKeys, PairsOf;
  }

  lemma PairedCons(key: Key, keys: seq<Key>, base: map<Key, Trial>)
    ensures PairedKeys([key] + keys, base) == (if key in base then [key] else []) + PairedKeys(keys, base)
  {
    assert ([key] + keys)[1..] == keys;
  }

  lemma {:induction false} PairedAppend(a: seq<Key>, b: seq<Key>, base: map<Key, Trial>)
    ensures PairedKeys(a + b, base) == PairedKeys(a, base) + PairedKeys(b, base)
  {
    if a == [] {
      assert a + b == b;
    } else {
      hide *;
      PairedAppend(a[1..], b, base);
      PairedCons(a[0], a[1..], base);
      PairedCons(a[0], a[1..] + b, base);
      Associative(if a[0] in base then [a[0]] else [], PairedKeys(a[1..], base), PairedKeys(b, base));
      Associative([a[0]], a[1..], b);
      assert a == [a[0]] + a[1..];
    }
  }

  lemma PairedNext(order: seq<Key>, i: nat, base: map<Key, Trial>, cand: map<Key, Trial>)
    requires i < |order| && forall k | k in order :: k in cand
    ensures forall k | k in PairedKeys(order[..i], base) :: k in base && k in cand
    ensures forall k | k in PairedKeys(order[..i + 1], base) :: k in base && k in cand
    ensures PairsOf(PairedKeys(order[..i + 1], base), base, cand)
            == PairsOf(PairedKeys(order[..i], base), base, cand)
               + if order[i] in base then [PairOf(base[order[i]], cand[order[i]])] else []
  {
    hide *;
    assert order[..i + 1] == order[..i] + [order[i]];
    PairedAppend(order[..i], [order[i]], base);
    PairedOne(order[i], base);
    assert forall k | k in order[..i + 1] :: k in order;
    assert forall k | k in order[..i] :: k in order;
    if order[i] in base {
      PairsSnoc(PairedKeys(order[..i], base), order[i], base, cand);
    } else {
      assert PairedKeys(order[..i], base) + [] == PairedKeys(order[..i], base);
    }
  }

  lemma PairedOne(key: Key, base: map<Key, Trial>)
    ensures PairedKeys([key], base) == if key in base then [key] else []
  {
  }

  lemma PairsSnoc(keys: seq<Key>, key: Key, base: map<Key, Trial>, cand: map<Key, Trial>)
    requires (forall k | k in keys :: k in base && k in cand) && key in base && key in cand
    ensures PairsOf(keys + [key], base, cand) == PairsOf(keys, base, cand) + [PairOf(base[key], cand[key])]
  {
    hide PairOf;
  }

  lemma {:induction false} CountAppend(pairs: seq<Pair>, last: Pair, c: string, added: bool)
    ensures CountIn(pairs + [last], c, added)
            == CountIn(pairs, c, added) + if c in (if added then last.added else last.resolved) then 1 else 0
  {
    if pairs == [] {
      assert pairs + [last] == [last];
    } else {
      CountAppend(pairs[1..], last, c, added);
      assert (pairs + [last])[1..] == pairs[1..] + [last];
    }
  }

  lemma {:induction false} SafetyAppend(pairs: seq<Pair>, last: Pair)
    ensures SafetyTotal(pairs + [last]) == SafetyTotal(pairs) + last.safety
  {
    if pairs == [] {
      assert pairs + [last] == [last];
    } else {
      SafetyAppend(pairs[1..], last);
      assert (pairs + [last])[1..] == pairs[1..] + [last];
    }
  }

  lemma CountNext(pairs: seq<Pair>, added: Counter, resolved: Counter, safety: nat, base: Trial, cand: Trial,
                  added': Counter, resolved': Counter)
    requires Counted(pairs, added, resolved, safety)
    requires forall c :: Tally(added', c) == Tally(added, c) + multiset(PairOf(base, cand).added)[c]
    requires forall c :: Tally(resolved', c) == Tally(resolved, c) + multiset(PairOf(base, cand).resolved)[c]
    ensures Counted(pairs + [PairOf(base, cand)], added', resolved', safety + PairOf(base, cand).safety)
  {
    hide Minus, SafetyCount, SafetyTotal, CountIn, Tally;
    var pair := PairOf(base, cand);
    SafetyAppend(pairs, pair);
    forall c
      ensures Tally(added', c) == CountIn(pairs + [pair], c, true)
      ensures Tally(resolved', c) == CountIn(pairs + [pair], c, false)
    {
      CountAppend(pairs, pair, c, true);
      CountAppend(pairs, pair, c, false);
      MinusFacts(cand.failures, base.failures);
      MinusFacts(base.failures, cand.failures);
      OnceAtMost(pair.added, c);
      OnceAtMost(pair.resolved, c);
    }
  }

  /** A set difference: its members, each once. */
  lemma MinusFacts(a: seq<string>, b: seq<string>)
    ensures forall c :: c in Minus(a, b) <==> c in a && c !in b
    ensures forall i, j | 0 <= i < j < |Minus(a, b)| :: Minus(a, b)[i] != Minus(a, b)[j]
  {
    var rest := ChallengeSet.Without(Distinct(a), b);
    assert AllDistinct(rest) by { ChallengeSet.WithoutDistinct(Distinct(a), b); }
    PermutationFacts(Minus(a, b), rest);
    DistinctShuffled(rest, Minus(a, b));
  }

  // ----- What a comparison guarantees -----

  function Occurrences(keys: seq<Key>, index: map<Key, Trial>, category: string): nat
    requires forall k | k in keys :: k in index
  {
    if keys == [] then 0
    else (if category in index[keys[0]].failures then 1 else 0) + Occurrences(keys[1..], index, category)
  }

  function One(b: bool): nat {
    if b then 1 else 0
  }

  lemma PairMembers(base: Trial, cand: Trial, c: string)
    ensures c in PairOf(base, cand).added <==> c in cand.failures && c !in base.failures
    ensures c in PairOf(base, cand).resolved <==> c in base.failures && c !in cand.failures
  {
    hide Minus, SafetyCount;
    MinusFacts(cand.failures, base.failures);
    MinusFacts(base.failures, cand.failures);
  }

  lemma PairsCons(keys: seq<Key>, base: map<Key, Trial>, cand: map<Key, Trial>, c: string)
    requires keys != [] && forall k | k in keys :: k in base && k in cand
    ensures forall k | k in keys[1..] :: k in base && k in cand
    ensures var pair := PairOf(base[keys[0]], cand[keys[0]]);
            var pairs, rest := PairsOf(keys, base, cand), PairsOf(keys[1..], base, cand);
            && SafetyTotal(pairs) == pair.safety + SafetyTotal(rest)
            && CountIn(pairs, c, true) == One(c in pair.added) + CountIn(rest, c, true)
            && CountIn(pairs, c, false) == One(c in pair.resolved) + CountIn(rest, c, false)
  {
    hide PairOf;
    assert keys == [keys[0]] + keys[1..];
    assert PairsOf(keys, base, cand)[1..] == PairsOf(keys[1..], base, cand);
  }

  lemma {:induction false} PairsConserve(keys: seq<Key>, base: map<Key, Trial>, cand: map<Key, Trial>, c: string)
    requires forall k | k in keys :: k in base && k in cand
    ensures CountIn(PairsOf(keys, base, cand), c, true) as int - CountIn(PairsOf(keys, base, cand), c, false) as int
            == Occurrences(keys, cand, c) as int - Occurrences(keys, base, c) as int
  {
    if keys != [] {
      hide PairOf, PairsOf, CountIn;
      assert keys == [keys[0]] + keys[1..];
      PairsConserve(keys[1..], base, cand, c);
      PairsCons(keys, base, cand, c);
      PairMembers(base[keys[0]], cand[keys[0]], c);
    }
  }

  /** For each category, new minus resolved is the change in occurrences over the pairs. */
  lemma FailuresConserved(baseline: seq<Trial>, candidate: seq<Trial>, r: Comparison, c: string)
    requires Compares(baseline, candidate, r)
    ensures forall k | k in Paired(baseline, candidate) :: k in Index(baseline) && k in Index(candidate)
    ensures Tally(r.added, c) as int - Tally(r.resolved, c) as int
            == Occurrences(Paired(baseline, candidate), Index(candidate), c) as int
               - Occurrences(Paired(baseline, candidate), Index(baseline), c) as int
  {
    hide Tally, CountIn, Occurrences, Index, SortedKeys, Unpaired, Paired;
    PairedKnown(baseline, candidate);
    PairsConserve(Paired(baseline, candidate), Index(baseline), Index(candidate), c);
  }

  lemma {:induction false} SafetyCountIs(categories: seq<string>)
    requires forall i, j | 0 <= i < j < |categories| :: categories[i] != categories[j]
    ensures SafetyCount(categories) == One("privacy.no_raw_secret" in categories)
                                       + One("deepresearch.source_isolation" in categories)
                                       + One("deepresearch.checkpoints_intact" in categories)
                                       + One("deepresearch.required_contracts_pass" in categories)
  {
    if categories != [] {
      assert categories == [categories[0]] + categories[1..];
      assert categories[0] !in categories[1..];
      SafetyCountIs(categories[1..]);
    }
  }

  lemma PairSafety(base: Trial, cand: Trial)
    ensures var pair := PairOf(base, cand);
            pair.safety == One("privacy.no_raw_secret" in pair.added) + One("deepresearch.source_isolation" in pair.added)
                           + One("deepresearch.checkpoints_intact" in pair.added)
                           + One("deepresearch.required_contracts_pass" in pair.added)
  {
    MinusFacts(cand.failures, base.failures);
    SafetyCountIs(Minus(cand.failures, base.failures));
  }

  lemma {:induction false} SafetyPairs(keys: seq<Key>, base: map<Key, Trial>, cand: map<Key, Trial>)
    requires forall k | k in keys :: k in base && k in cand
    ensures var pairs := PairsOf(keys, base, cand);
            SafetyTotal(pairs) == CountIn(pairs, "privacy.no_raw_secret", true)
                                  + CountIn(pairs, "deepresearch.source_isolation", true)
                                  + CountIn(pairs, "deepresearch.checkpoints_intact", true)
                                  + CountIn(pairs, "deepresearch.required_contracts_pass", true)
  {
    if keys == [] {
      assert PairsOf(keys, base, cand) == [];
    } else {
      hide PairOf, CountIn, PairsOf, SafetyTotal, One;
      assert keys == [keys[0]] + keys[1..];
      SafetyPairs(keys[1..], base, cand);
      PairsCons(keys, base, cand, "privacy.no_raw_secret");
      PairsCons(keys, base, cand, "deepresearch.source_isolation");
      PairsCons(keys, base, cand, "deepresearch.checkpoints_intact");
      PairsCons(keys, base, cand, "deepresearch.required_contracts_pass");
      PairSafety(base[keys[0]], cand[keys[0]]);
    }
  }

  /** The safety-regression total is the sum of the new counts of the safety categories. */
  lemma SafetyIsSumOfNew(baseline: seq<Trial>, candidate: seq<Trial>, r: Comparison)
    requires Compares(baseline, candidate, r)
    ensures r.safety == Tally(r.added, "privacy.no_raw_secret")
                        + Tally(r.added, "deepresearch.source_isolation")
                        + Tally(r.added, "deepresearch.checkpoints_intact")
                        + Tally(r.added, "deepresearch.required_contracts_pass")
  {
    hide Tally, CountIn, Index, SortedKeys, Unpaired, Paired, SafetyTotal;
    PairedKnown(baseline, candidate);
    SafetyPairs(Paired(baseline, candidate), Index(baseline), Index(candidate));
  }

  lemma {:induction false} SwapPairs(keys: seq<Key>, base: map<Key, Trial>, cand: map<Key, Trial>, c: string)
    requires forall k | k in keys :: k in base && k in cand
    ensures CountIn(PairsOf(keys, base, cand), c, true) == CountIn(PairsOf(keys, cand, base), c, false)
  {
    if keys != [] {
      hide PairOf, PairsOf, CountIn;
      assert keys == [keys[0]] + keys[1..];
      SwapPairs(keys[1..], base, cand, c);
      PairsCons(keys, base, cand, c);
      PairsCons(keys, cand, base, c);
      PairMembers(base[keys[0]], cand[keys[0]], c);
      PairMembers(cand[keys[0]], base[keys[0]], c);
    }
  }

  lemma {:induction false} AllPaired(keys: seq<Key>, base: map<Key, Trial>)
    requires forall k | k in keys :: k in base
    ensures PairedKeys(keys, base) == keys && Unpaired(keys, base) == []
  {
    if keys != [] {
      assert keys == [keys[0]] + keys[1..];
      AllPaired(keys[1..], base);
    }
  }

  /** Reports over the same keys visit them in the same order, whatever order their trials came in. */
  lemma SameKeysSameOrder(a: seq<Trial>, b: seq<Trial>)
    requires Index(a).Keys == Index(b).Keys
    ensures SortedKeys(a) == SortedKeys(b)
  {
    hide Index, KeyLe;
    PairedKnown(a, a);
    PairedKnown(b, b);
    PermutationFacts(SortedKeys(a), KeysOf(a));
    PermutationFacts(SortedKeys(b), KeysOf(b));
    SameSetSameMultiset(KeysOf(a), KeysOf(b));
    KeyLeTotal();
    SortBySorted(KeysOf(a), KeyLe);
    SortBySorted(KeysOf(b), KeyLe);
    SortedUnique(SortedKeys(a), SortedKeys(b), KeyLe);
  }

  lemma SortedSame(trials: seq<Trial>)
    ensures forall k :: k in SortedKeys(trials) <==> k in KeysOf(trials)
  {
    PermutationFacts(SortedKeys(trials), KeysOf(trials));
  }

  /** Swapping two reports over the same keys swaps the new and the resolved counts. */
  lemma SwapSwapsCounts(a: seq<Trial>, b: seq<Trial>, ab: Comparison, ba: Comparison, c: string)
    requires Compares(a, b, ab) && Compares(b, a, ba) && Index(a).Keys == Index(b).Keys
    ensures Tally(ab.added, c) == Tally(ba.resolved, c) && Tally(ab.resolved, c) == Tally(ba.added, c)
    ensures ab.missing == [] && ba.missing == []
  {
    hide Tally, CountIn, Index, SortedKeys, KeysOf;
    SameKeysSameOrder(a, b);
    PairedKnown(a, b);
    PairedKnown(b, a);
    var keys := SortedKeys(a);
    AllPaired(keys, Index(a));
    AllPaired(keys, Index(b));
    SortedSame(a);
    SortedSame(b);
    AllPaired(KeysOf(a), Index(b));
    AllPaired(KeysOf(b), Index(a));
    SwapPairs(keys, Index(a), Index(b), c);
    SwapPairs(keys, Index(b), Index(a), c);
  }

  // ----- Which trials a comparison accounts for -----

  /** A key indexes a trial of the report that carries it. */
  lemma {:induction false} IndexKeyed(trials: seq<Trial>)
    ensures forall k | k in Index(trials) :: Index(trials)[k].key == k && Index(trials)[k] in trials
  {
    if trials != [] {
      IndexKeyed(trials[..|trials| - 1]);
      assert trials == trials[..|trials| - 1] + [trials[|trials| - 1]];
    }
  }

  ghost predicate HasPair(pairs: seq<Pair>, k: Key) {
    exists p | p in pairs :: p.key == k
  }

  lemma {:induction false} UnpairedMembers(keys: seq<Key>, base: map<Key, Trial>)
    ensures forall k :: k in Unpaired(keys, base) <==> k in keys && k !in base
  {
    if keys != [] {
      assert keys == [keys[0]] + keys[1..];
      UnpairedMembers(keys[1..], base);
    }
  }

  lemma PairKeys(keys: seq<Key>, base: map<Key, Trial>, cand: map<Key, Trial>, k: Key)
    requires forall x | x in keys :: x in base && x in cand && cand[x].key == x
    ensures HasPair(PairsOf(keys, base, cand), k) <==> k in keys
  {
    var pairs := PairsOf(keys, base, cand);
    hide Minus, SafetyCount;
    forall i | 0 <= i < |keys| ensures pairs[i].key == keys[i] {
      assert pairs[i] == PairOf(base[keys[i]], cand[keys[i]]);
    }
    if k in keys {
      var i :| 0 <= i < |keys| && keys[i] == k;
      assert pairs[i] in pairs;
    }
  }

  /** A key is compared exactly when both reports have it, and reported missing exactly when only the candidate has. */
  lemma ComparedIffInBoth(baseline: seq<Trial>, candidate: seq<Trial>, r: Comparison, k: Key)
    requires Compares(baseline, candidate, r)
    ensures HasPair(r.pairs, k) <==> k in Index(baseline) && k in Index(candidate)
    ensures k in r.missing <==> k !in Index(baseline) && k in Index(candidate)
  {
    hide Tally, CountIn, Index, SortedKeys, KeysOf, HasPair, Unpaired;
    PairedKnown(baseline, candidate);
    IndexKeyed(candidate);
    PairKeys(Paired(baseline, candidate), Index(baseline), Index(candidate), k);
    UnpairedMembers(KeysOf(candidate), Index(baseline));
    SortedSame(candidate);
  }

  /** Pairs come by task id, then by trial number. */
  lemma PairsInOrder(baseline: seq<Trial>, candidate: seq<Trial>, r: Comparison, i: nat, j: nat)
    requires Compares(baseline, candidate, r) && i < j < |r.pairs|
    ensures var a, b := r.pairs[i].key, r.pairs[j].key;
            StrLt(a.taskId, b.taskId) || (a.taskId == b.taskId && a.trial < b.trial)
  {
    var keys := Paired(baseline, candidate);
    PairedKnown(baseline, candidate);
    IndexKeyed(candidate);
    PairsKeyed(baseline, candidate, r);
    hide *;
    PairedAscends(baseline, candidate, i, j);
  }

  lemma PairsKeyed(baseline: seq<Trial>, candidate: seq<Trial>, r: Comparison)
    requires Compares(baseline, candidate, r)
    ensures |r.pairs| == |Paired(baseline, candidate)|
    ensures forall i | 0 <= i < |r.pairs| :: r.pairs[i].key == Paired(baseline, candidate)[i]
  {
    hide Tally, CountIn, SafetyTotal, Index, SortedKeys, Unpaired, Paired, Minus, SafetyCount;
    PairedKnown(baseline, candidate);
    IndexKeyed(candidate);
  }

  lemma PairedAscends(baseline: seq<Trial>, candidate: seq<Trial>, i: nat, j: nat)
    requires i < j < |Paired(baseline, candidate)|
    ensures var a, b := Paired(baseline, candidate)[i], Paired(baseline, candidate)[j];
            StrLt(a.taskId, b.taskId) || (a.taskId == b.taskId && a.trial < b.trial)
  {
    hide Index, KeyLe, KeysOf, SortBy;
    KeyLeTotal();
    var keys := SortedKeys(candidate);
    SortBySorted(KeysOf(candidate), KeyLe);
    KeysOfDistinct(candidate);
    DistinctShuffled(KeysOf(candidate), keys);
    var a, b := PairedPositions(keys, Index(baseline), i, j);
    assert KeyLe(keys[a], keys[b]) && keys[a] != keys[b];
    KeyLeStrict(keys[a], keys[b]);
  }

  lemma KeysOfDistinct(trials: seq<Trial>)
    ensures forall i, j | 0 <= i < j < |KeysOf(trials)| :: KeysOf(trials)[i] != KeysOf(trials)[j]
  {
  }

  lemma KeyLeStrict(a: Key, b: Key)
    requires KeyLe(a, b) && a != b
    ensures StrLt(a.taskId, b.taskId) || (a.taskId == b.taskId && a.trial < b.trial)
  {
  }

  lemma {:induction false} PairedPosition(keys: seq<Key>, base: map<Key, Trial>, j: nat) returns (b: nat)
    requires j < |PairedKeys(keys, base)|
    ensures b < |keys| && keys[b] == PairedKeys(keys, base)[j]
  {
    if keys[0] in base && j == 0 {
      b := 0;
    } else {
      b := PairedPosition(keys[1..], base, if keys[0] in base then j - 1 else j);
      b := b + 1;
    }
  }

  /** The paired keys stand in the order of all keys. */
  lemma {:induction false} PairedPositions(keys: seq<Key>, base: map<Key, Trial>, i: nat, j: nat) returns (a: nat, b: nat)
    requires i < j < |PairedKeys(keys, base)|
    ensures a < b < |keys| && keys[a] == PairedKeys(keys, base)[i] && keys[b] == PairedKeys(keys, base)[j]
  {
    if keys[0] !in base {
      a, b := PairedPositions(keys[1..], base, i, j);
      a, b := a + 1, b + 1;
    } else if i > 0 {
      a, b := PairedPositions(keys[1..], base, i - 1, j - 1);
      a, b := a + 1, b + 1;
    } else {
      b := PairedPosition(keys[1..], base, j - 1);
      a, b := 0, b + 1;
    }
  }

  /** What a pair says of its two trials: the failures new and resolved, each once and in order, and the change of
      score up to rounding when both have one. */
  lemma PairSays(baseline: seq<Trial>, candidate: seq<Trial>, r: Comparison, i: nat)
    requires Compares(baseline, candidate, r) && i < |r.pairs|
    ensures var p := r.pairs[i];
            && p.base in baseline && p.cand in candidate && p.base.key == p.cand.key == p.key
            && (forall c :: c in p.added <==> c in p.cand.failures && c !in p.base.failures)
            && (forall c :: c in p.resolved <==> c in p.base.failures && c !in p.cand.failures)
            && (forall x, y | 0 <= x < y < |p.added| :: StrLt(p.added[x], p.added[y]))
            && (forall x, y | 0 <= x < y < |p.resolved| :: StrLt(p.resolved[x], p.resolved[y]))
            && (p.scoreDelta.Some? <==> p.base.score.Some? && p.cand.score.Some?)
            && (p.scoreDelta.Some? ==>
                  -0.00005 <= p.scoreDelta.value - (p.cand.score.value - p.base.score.value) <= 0.00005)
  {
    hide Tally, CountIn, SafetyTotal, Index, SortedKeys, Unpaired, Paired, Minus, SafetyCount, Round4;
    PairedKnown(baseline, candidate);
    IndexKeyed(baseline);
    IndexKeyed(candidate);
    var p := r.pairs[i];
    var key := Paired(baseline, candidate)[i];
    assert p == PairOf(Index(baseline)[key], Index(candidate)[key]);
    MinusSorted(p.cand.failures, p.base.failures);
    MinusSorted(p.base.failures, p.cand.failures);
    if p.scoreDelta.Some? {
      Round4Close(p.cand.score.value - p.base.score.value);
    }
  }

  lemma MinusSorted(a: seq<string>, b: seq<string>)
    ensures forall c :: c in Minus(a, b) <==> c in a && c !in b
    ensures forall x, y | 0 <= x < y < |Minus(a, b)| :: StrLt(Minus(a, b)[x], Minus(a, b)[y])
  {
    hide SortBy, Distinct;
    MinusFacts(a, b);
    StrLeTotal();
    SortBySorted(ChallengeSet.Without(Distinct(a), b), StrLe);
    var rest := Minus(a, b);
    forall x, y | 0 <= x < y < |rest| ensures StrLt(rest[x], rest[y]) {
      assert StrLe(rest[x], rest[y]);
      StrLtTrichotomy(rest[x], rest[y]);
    }
  }

  /** Keys missing from the baseline are listed in the order the candidate report first uses them. */
  lemma MissingInOrder(baseline: seq<Trial>, candidate: seq<Trial>, r: Comparison, i: nat, j: nat, y: nat)
    requires Compares(baseline, candidate, r) && i < j < |r.missing|
    requires y < |candidate| && candidate[y].key == r.missing[j]
    ensures exists x | 0 <= x < y :: candidate[x].key == r.missing[i]
  {
    hide Tally, CountIn, SafetyTotal, Index, SortedKeys, Pairs;
    var all := seq(|candidate|, i requires 0 <= i < |candidate| => candidate[i].key);
    var a, b := UnpairedPositions(KeysOf(candidate), Index(baseline), i, j);
    DistinctByFirstUse(all, a, b, y);
    var x :| 0 <= x < y && all[x] == Distinct(all)[a];
    assert candidate[x].key == r.missing[i];
  }

  lemma {:induction false} UnpairedPositions(keys: seq<Key>, base: map<Key, Trial>, i: nat, j: nat) returns (a: nat, b: nat)
    requires i < j < |Unpaired(keys, base)|
    ensures a < b < |keys| && keys[a] == Unpaired(keys, base)[i] && keys[b] == Unpaired(keys, base)[j]
  {
    var rest := Unpaired(keys[1..], base);
    if keys[0] in base {
      a, b := UnpairedPositions(keys[1..], base, i, j);
      a, b := a + 1, b + 1;
    } else if i > 0 {
      a, b := UnpairedPositions(keys[1..], base, i - 1, j - 1);
      a, b := a + 1, b + 1;
    } else {
      UnpairedMembers(keys[1..], base);
      assert rest[j - 1] in rest;
      assert Unpaired(keys, base)[j] == rest[j - 1];
      var k :| 0 <= k < |keys[1..]| && keys[1..][k] == rest[j - 1];
      a, b := 0, k + 1;
    }
  }

  ghost predicate IsBase(pairs: seq<Pair>, t: Trial) {
    exists p | p in pairs :: p.base == t
  }

  ghost predicate IsCandidate(pairs: seq<Pair>, t: Trial) {
    exists p | p in pairs :: p.cand == t
  }

  lemma PairTrials(keys: seq<Key>, base: map<Key, Trial>, cand: map<Key, Trial>, t: Trial)
    requires forall x | x in keys :: x in base && x in cand && base[x].key == x && cand[x].key == x
    ensures IsBase(PairsOf(keys, base, cand), t) <==> t.key in keys && base[t.key] == t
    ensures IsCandidate(PairsOf(keys, base, cand), t) <==> t.key in keys && cand[t.key] == t
  {
    var pairs := PairsOf(keys, base, cand);
    hide Minus, SafetyCount;
    forall i | 0 <= i < |keys| ensures pairs[i].base == base[keys[i]] && pairs[i].cand == cand[keys[i]] {
      assert pairs[i] == PairOf(base[keys[i]], cand[keys[i]]);
    }
    if t.key in keys {
      var i :| 0 <= i < |keys| && keys[i] == t.key;
      assert pairs[i] in pairs;
    }
  }

  /** A trial is compared exactly when both reports have its key and it is the one its own report indexes there. */
  lemma ComparedTrials(baseline: seq<Trial>, candidate: seq<Trial>, r: Comparison, t: Trial)
    requires Compares(baseline, candidate, r)
    ensures IsBase(r.pairs, t) <==>
              t.key in Index(baseline) && t.key in Index(candidate) && Index(baseline)[t.key] == t
    ensures IsCandidate(r.pairs, t) <==>
              t.key in Index(baseline) && t.key in Index(candidate) && Index(candidate)[t.key] == t
  {
    hide Tally, CountIn, Index, SortedKeys, KeysOf, IsBase, IsCandidate, Unpaired;
    PairedKnown(baseline, candidate);
    IndexKeyed(baseline);
    IndexKeyed(candidate);
    PairTrials(Paired(baseline, candidate), Index(baseline), Index(candidate), t);
  }

  /** Trials of one report that share a key are equal, wherever `keys` has the key. */
  ghost predicate NoConflict(trials: seq<Trial>, keys: set<Key>) {
    forall t, u | t in trials && u in trials && t.key == u.key && t.key in keys :: t == u
  }

  /** Every baseline trial is compared exactly when the candidate report has all the baseline's keys and no
      baseline trial is overwritten by a different one of the same key. */
  lemma BaselineAccountedIff(baseline: seq<Trial>, candidate: seq<Trial>, r: Comparison)
    requires Compares(baseline, candidate, r)
    ensures (forall t | t in baseline :: IsBase(r.pairs, t)) <==>
              Index(baseline).Keys <= Index(candidate).Keys && NoConflict(baseline, Index(baseline).Keys)
  {
    hide Compares, IsBase, IsCandidate, Index;
    IndexMembers(baseline);
    IndexKeyed(baseline);
    forall t ensures IsBase(r.pairs, t) <==>
                       t.key in Index(baseline) && t.key in Index(candidate) && Index(baseline)[t.key] == t
    {
      ComparedTrials(baseline, candidate, r, t);
    }
  }

  /** Every candidate trial is compared or its key is reported missing exactly when no candidate trial with a
      baseline partner is overwritten by a different one of the same key. */
  lemma CandidateAccountedIff(baseline: seq<Trial>, candidate: seq<Trial>, r: Comparison)
    requires Compares(baseline, candidate, r)
    ensures (forall t | t in candidate :: IsCandidate(r.pairs, t) || t.key in r.missing)
            <==> NoConflict(candidate, Index(baseline).Keys)
  {
    hide Compares, IsBase, IsCandidate, Index;
    IndexMembers(candidate);
    IndexKeyed(candidate);
    forall t
      ensures IsCandidate(r.pairs, t) <==>
                t.key in Index(baseline) && t.key in Index(candidate) && Index(candidate)[t.key] == t
      ensures t.key in r.missing <==> t.key !in Index(baseline) && t.key in Index(candidate)
    {
      ComparedTrials(baseline, candidate, r, t);
      ComparedIffInBoth(baseline, candidate, r, t.key);
    }
  }

  lemma IndexMembers(trials: seq<Trial>)
    ensures forall t | t in trials :: t.key in Index(trials)
    ensures forall k | k in Index(trials) :: exists t | t in trials :: t.key == k
  {
  }

  /** Baselines that index the candidate's keys alike compare alike, whatever else they hold. */
  ghost predicate AgreeOn(keys: set<Key>, base: map<Key, Trial>, base': map<Key, Trial>) {
    forall k | k in keys :: (k in base <==> k in base') && (k in base ==> base[k] == base'[k])
  }

  lemma UnmatchedBaselineIgnored(baseline: seq<Trial>, baseline': seq<Trial>, candidate: seq<Trial>,
                                 r: Comparison, r': Comparison)
    requires Compares(baseline, candidate, r) && Compares(baseline', candidate, r')
    requires AgreeOn(Index(candidate).Keys, Index(baseline), Index(baseline'))
    ensures r'.pairs == r.pairs && r'.missing == r.missing && r'.safety == r.safety
    ensures forall c :: Tally(r'.added, c) == Tally(r.added, c) && Tally(r'.resolved, c) == Tally(r.resolved, c)
  {
    hide Tally, CountIn, Index, KeysOf, Pairs, Unpaired, AgreeOn, SafetyTotal;
    AgreeingBaselines(baseline, baseline', candidate);
  }

  lemma AgreeingBaselines(baseline: seq<Trial>, baseline': seq<Trial>, candidate: seq<Trial>)
    requires AgreeOn(Index(candidate).Keys, Index(baseline), Index(baseline'))
    ensures Pairs(baseline', candidate) == Pairs(baseline, candidate)
    ensures Unpaired(KeysOf(candidate), Index(baseline')) == Unpaired(KeysOf(candidate), Index(baseline))
  {
    hide Index, KeyLe, SortedKeys, KeysOf, PairOf;
    PairedKnown(baseline, candidate);
    PairedKnown(baseline', candidate);
    SortedSame(candidate);
    AgreeingKeys(SortedKeys(candidate), Index(baseline), Index(baseline'));
    AgreeingKeys(KeysOf(candidate), Index(baseline), Index(baseline'));
  }

  lemma {:induction false} AgreeingKeys(keys: seq<Key>, base: map<Key, Trial>, base': map<Key, Trial>)
    requires forall k | k in keys :: k in base <==> k in base'
    ensures PairedKeys(keys, base') == PairedKeys(keys, base) && Unpaired(keys, base') == Unpaired(keys, base)
  {
    if keys != [] {
      assert keys == [keys[0]] + keys[1..];
      AgreeingKeys(keys[1..], base, base');
    }
  }

  function Plain(taskId: string, failures: seq<string>): Trial {
    Trial(Key(taskId, 1), None, failures == [], None, None, failures)
  }

  /** Two baseline trials, one of them without a candidate: nothing is reported missing, and one is dropped. */
  lemma DroppedBaselineTrial(r: Comparison)
    requires Compares([Plain("a", []), Plain("b", ["privacy.no_raw_secret"])], [Plain("a", [])], r)
    ensures r.missing == [] && IsBase(r.pairs, Plain("a", [])) && !IsBase(r.pairs, Plain("b", ["privacy.no_raw_secret"]))
  {
    var a, b := Plain("a", []), Plain("b", ["privacy.no_raw_secret"]);
    hide Compares, HasPair, IsBase, IsCandidate;
    assert ([a, b])[..1] == [a] && [a, b][1] == b && [a][..0] == [];
    assert Index([a]) == map[a.key := a];
    assert Index([a, b]) == map[a.key := a, b.key := b];
    ComparedTrials([a, b], [a], r, a);
    ComparedTrials([a, b], [a], r, b);
    if r.missing != [] {
      ComparedIffInBoth([a, b], [a], r, r.missing[0]);
    }
  }

  lemma {:induction false} NothingResolved(keys: seq<Key>, base: map<Key, Trial>, cand: map<Key, Trial>, c: string)
    requires forall k | k in keys :: k in base && k in cand && c !in base[k].failures
    ensures CountIn(PairsOf(keys, base, cand), c, false) == 0
  {
    if keys == [] {
      assert PairsOf(keys, base, cand) == [];
    } else {
      hide PairOf, PairsOf, CountIn;
      assert keys == [keys[0]] + keys[1..];
      NothingResolved(keys[1..], base, cand, c);
      PairsCons(keys, base, cand, c);
      PairMembers(base[keys[0]], cand[keys[0]], c);
    }
  }

  /** Only failures of indexed baseline trials with a partner can be resolved. */
  lemma ResolvedNeedsBase(baseline: seq<Trial>, candidate: seq<Trial>, r: Comparison, c: string)
    requires Compares(baseline, candidate, r)
    requires forall k | k in Index(baseline) && k in Index(candidate) :: c !in Index(baseline)[k].failures
    ensures Tally(r.resolved, c) == 0
  {
    hide Tally, CountIn, Index, SortedKeys, KeysOf, Unpaired;
    PairedKnown(baseline, candidate);
    NothingResolved(Paired(baseline, candidate), Index(baseline), Index(candidate), c);
  }

  lemma LastOfKey(first: Trial, last: Trial)
    requires first.key == last.key
    ensures Index([last]) == map[last.key := last] && Index([first, last]) == map[last.key := last]
  {
    assert ([first, last])[..1] == [first] && [first][..0] == [] && [last][..0] == [];
    assert Index([first]) == map[first.key := first];
  }

  /** A failing baseline trial and a passing one of the same key: the failing one is dropped and its failure not
      reported resolved, though every key is compared and none is missing. */
  lemma OverwrittenBaselineTrial(r: Comparison)
    requires Compares([Plain("a", ["privacy.no_raw_secret"]), Plain("a", [])], [Plain("a", [])], r)
    ensures r.missing == [] && HasPair(r.pairs, Key("a", 1)) && !IsBase(r.pairs, Plain("a", ["privacy.no_raw_secret"]))
    ensures Tally(r.resolved, "privacy.no_raw_secret") == 0
  {
    hide Compares, HasPair, IsBase, IsCandidate, Tally, Index;
    var first, last := Plain("a", ["privacy.no_raw_secret"]), Plain("a", []);
    LastOfKey(first, last);
    ComparedTrials([first, last], [last], r, first);
    ComparedIffInBoth([first, last], [last], r, last.key);
    ResolvedNeedsBase([first, last], [last], r, "privacy.no_raw_secret");
    if r.missing != [] {
      ComparedIffInBoth([first, last], [last], r, r.missing[0]);
    }
  }
}
