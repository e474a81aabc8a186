/** The trajectory scorer's loops: expected tools in order, and repeated fingerprints. */
module ToolTrajectory {
  import opened Counting
  import opened Prelude
  import opened Snapshot
  import opened DeepResearchAdapter

  /** Increasing positions below `limit` spell the first `|at|` expected names. */
  ghost predicate Embeds(expected: seq<string>, actual: seq<string>, limit: nat, at: seq<nat>) {
    && |at| <= |expected| && limit <= |actual|
    && (forall i | 0 <= i < |at| :: at[i] < limit && actual[at[i]] == expected[i])
    && (forall i, j | 0 <= i < j < |at| :: at[i] < at[j])
  }

  /** `expected` occurs in `actual` in order, not necessarily contiguously. */
  ghost predicate Subsequence(expected: seq<string>, actual: seq<string>) {
    exists at :: Embeds(expected, actual, |actual|, at) && |at| == |expected|
  }

  /** However a prefix of `expected` is embedded below `limit`, greedy matching has got at least as far. */
  ghost predicate GreedyAhead(expected: seq<string>, actual: seq<string>, limit: nat, position: nat) {
    forall at | Embeds(expected, actual, limit, at) :: |at| <= position
  }

  lemma GreedyStaysAhead(expected: seq<string>, actual: seq<string>, i: nat, position: nat, next: nat)
    requires i < |actual| && position <= |expected| && GreedyAhead(expected, actual, i, position)
    requires next == if position < |expected| && actual[i] == expected[position] then position + 1 else position
    ensures GreedyAhead(expected, actual, i + 1, next)
  {
    forall at | Embeds(expected, actual, i + 1, at) ensures |at| <= next {
      if at != [] {
        var n := |at| - 1;
        if at[n] < i {
          assert Embeds(expected, actual, i, at);
        } else {
          assert Embeds(expected, actual, i, at[..n]);
          assert actual[i] == expected[n];
        }
      }
    }
  }

  lemma NothingEmbedded(expected: seq<string>, actual: seq<string>)
    ensures GreedyAhead(expected, actual, 0, 0)
  {
    forall at ensures Embeds(expected, actual, 0, at) ==> |at| <= 0 {
      assert at != [] ==> !(at[0] < 0);
    }
  }

  /** `_ordered_subset`: one greedy pass decides the subsequence question. */
  method OrderedSubset(expected: seq<string>, actual: seq<string>) returns (found: bool)
    ensures found <==> Subsequence(expected, actual)
  {
    var position := 0;
    ghost var at: seq<nat> := [];
    NothingEmbedded(expected, actual);
    for i := 0 to |actual|
      invariant position == |at| && Embeds(expected, actual, i, at)
      invariant GreedyAhead(expected, actual, i, position)
    {
      GreedyStaysAhead(expected, actual, i, position,
        if position < |expected| && actual[i] == expected[position] then position + 1 else position);
      if position < |expected| && actual[i] == expected[position] {
        at := at + [i];
        position := position + 1;
      }
    }
    found := position == |expected|;
  }

  function Over(n: nat): nat {
    if n > 1 then n - 1 else 0
  }

  /** `sum(count - 1 for count in counts.values() if count > 1)`. */
  ghost function Excess(counts: map<string, nat>): nat
    decreases |counts|
  {
    if counts == map[] then 0
    else
      var k :| k in counts;
      Over(counts[k]) + Excess(counts - {k})
  }

  lemma {:induction false} ExcessRemove(counts: map<string, nat>, k: string)
    requires k in counts
    ensures Excess(counts) == Over(counts[k]) + Excess(counts - {k})
    decreases |counts|
  {
    var c :| c in counts && Excess(counts) == Over(counts[c]) + Excess(counts - {c});
    if c != k {
      ExcessRemove(counts - {c}, k);
      ExcessRemove(counts - {k}, c);
      assert counts - {c} - {k} == counts - {k} - {c};
    }
  }

  lemma ExcessUpdate(counts: map<string, nat>, k: string, n: nat)
    ensures Excess(counts[k := n]) == Over(n) + Excess(counts - {k})
  {
    var updated := counts[k := n];
    ExcessRemove(updated, k);
    assert updated - {k} == counts - {k};
  }

  /** The dictionary holds exactly the fingerprints seen, each counted at least once. */
  ghost predicate CountsSeen(calls: seq<ToolCall>, counts: map<string, nat>) {
    && (forall key :: key in counts <==> exists c :: c in calls && Fingerprinted(c) && CallKey(c) == key)
    && (forall key | key in counts :: counts[key] >= 1)
    && Excess(counts) == DuplicateFingerprints(calls)
  }

  lemma CountsSeenStep(calls: seq<ToolCall>, c: ToolCall, counts: map<string, nat>)
    requires CountsSeen(calls, counts)
    ensures Fingerprinted(c) ==>
              CountsSeen(calls + [c], counts[CallKey(c) := (if CallKey(c) in counts then counts[CallKey(c)] else 0) + 1])
    ensures !Fingerprinted(c) ==> CountsSeen(calls + [c], counts)
  {
    hide CallKey, Fingerprinted;
    var key := CallKey(c);
    assert (calls + [c])[..|calls|] == calls;
    assert DuplicateFingerprints(calls + [c]) == DuplicateFingerprints(calls) + if RepeatsEarlier(calls, c) then 1 else 0;
    if Fingerprinted(c) {
      var n := (if key in counts then counts[key] else 0) + 1;
      ExcessUpdate(counts, key, n);
      if key in counts {
        ExcessRemove(counts, key);
      } else {
        assert counts - {key} == counts;
      }
    }
  }

  /** `_duplicate_count`, also the adapter's `duplicate_calls`: a counting pass and a summing pass. */
  method DuplicateCount(calls: seq<ToolCall>) returns (total: nat)
    ensures total == DuplicateFingerprints(calls)
  {
    hide CallKey, Fingerprinted, DuplicateFingerprints;
    var counts: map<string, nat> := map[];
    NothingCounted();
    for i := 0 to |calls|
      invariant CountsSeen(calls[..i], counts)
    {
      assert calls[..i + 1] == calls[..i] + [calls[i]];
      CountsSeenStep(calls[..i], calls[i], counts);
      if Fingerprinted(calls[i]) {
        var key := CallKey(calls[i]);
        counts := counts[key := (if key in counts then counts[key] else 0) + 1];
      }
    }
    assert calls[..|calls|] == calls;
    total := 0;
    var rest := counts;
    while rest != map[]
      invariant total + Excess(rest) == Excess(counts)
      decreases |rest|
    {
      var key :| key in rest;
      ExcessRemove(rest, key);
      total := total + Over(rest[key]);
      rest := rest - {key};
    }
  }

  lemma NothingCounted()
    ensures CountsSeen([], map[])
  {
  }
}
