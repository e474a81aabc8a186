/**
 The parent-first order of an OTLP trace: Kahn's algorithm over the partial function
 span -> parent, driven by a min-heap on (start, end, span id).
 */
module SpanOrdering {
  import opened Counting
  import opened Ordering
  import opened Prelude
  import opened ReadyHeap

  /** One prepared span; the resource, scope and attributes that travel with it are not modelled. */
  datatype Span = Span(start: int, end: int, id: string, parent: Option<string>) {
    function Key(): Key {
      ReadyHeap.Key(start, end, id)
    }
  }

  datatype OrderError = DuplicateSpanId | ParentCycle

  function Ids(spans: seq<Span>): set<string> {
    set s | s in spans :: s.id
  }

  ghost predicate UniqueIds(spans: seq<Span>) {
    forall i, j | 0 <= i < j < |spans| :: spans[i].id != spans[j].id
  }

  /** Not yet placed, and any parent inside the trace is already placed. */
  predicate Ready(spans: seq<Span>, placed: set<string>, s: Span) {
    && s in spans && s.id !in placed
    && (s.parent.Some? && s.parent.value in Ids(spans) ==> s.parent.value in placed)
  }

  ghost predicate LeastReady(spans: seq<Span>, placed: set<string>, s: Span) {
    && Ready(spans, placed, s)
    && forall t | Ready(spans, placed, t) :: KeyLe(s.Key(), t.Key())
  }

  /** Every placed span was the least one ready at its turn. */
  ghost predicate Greedy(spans: seq<Span>, out: seq<Span>) {
    forall i | 0 <= i < |out| :: LeastReady(spans, Ids(out[..i]), out[i])
  }

  /** `q` rearranges the trace so that every span follows its parent. */
  ghost predicate ParentFirst(spans: seq<Span>, q: seq<Span>) {
    && multiset(q) == multiset(spans)
    && forall i, j | 0 <= i < |q| && 0 <= j < |q| && q[j].parent == Some(q[i].id) :: i < j
  }

  /** Lexicographic order on sequences of spans by (start, end, span id). */
  ghost predicate LexLe(a: seq<Span>, b: seq<Span>) {
    a == b || exists k: nat :: FirstDifference(a, b, k) && Before(a[k], b[k])
  }

  /** The earlier start, then the earlier end, then the smaller span id. */
  ghost predicate Before(s: Span, t: Span) {
    || s.start < t.start
    || (s.start == t.start && s.end < t.end)
    || (s.start == t.start && s.end == t.end && StrLt(s.id, t.id))
  }

  ghost predicate FirstDifference(a: seq<Span>, b: seq<Span>, k: nat) {
    k < |a| && k < |b| && a[k] != b[k] && forall m | 0 <= m < k :: a[m] == b[m]
  }

  /** `q` is the least parent-first ordering of the trace. */
  ghost predicate LeastParentFirst(spans: seq<Span>, q: seq<Span>) {
    ParentFirst(spans, q) && forall other | ParentFirst(spans, other) :: LexLe(q, other)
  }

  /** The parent of the span called `id`, when that parent is part of the trace. */
  ghost function ParentOf(spans: seq<Span>, id: string): Option<string> {
    if exists s :: s in spans && s.id == id && s.parent.Some? && s.parent.value in Ids(spans) then
      var s :| s in spans && s.id == id && s.parent.Some? && s.parent.value in Ids(spans);
      s.parent
    else
      None
  }

  /** The `k`-th ancestor inside the trace, `None` once the chain has left it. */
  ghost function Ancestor(spans: seq<Span>, id: string, k: nat): Option<string> {
    if k == 0 then
      Some(id)
    else
      match Ancestor(spans, id, k - 1)
      case None => None
      case Some(a) => ParentOf(spans, a)
  }

  /** Some span is its own `k`-th ancestor, `k` at least 1 (so self-parents count). */
  ghost predicate HasCycle(spans: seq<Span>) {
    exists id, k: nat :: OnCycle(spans, id, k)
  }

  ghost predicate OnCycle(spans: seq<Span>, id: string, k: nat) {
    k >= 1 && id in Ids(spans) && Ancestor(spans, id, k) == Some(id)
  }

  ghost predicate NeverLeaves(spans: seq<Span>, id: string) {
    forall k: nat :: Ancestor(spans, id, k).Some?
  }

  // ----- Facts about unique ids -----

  lemma SameIdSameSpan(spans: seq<Span>, s: Span, t: Span)
    requires UniqueIds(spans) && s in spans && t in spans && s.id == t.id
    ensures s == t
  {
    var i :| 0 <= i < |spans| && spans[i] == s;
    var j :| 0 <= j < |spans| && spans[j] == t;
    assert i == j;
  }

  lemma ParentOfSpan(spans: seq<Span>, s: Span)
    requires UniqueIds(spans) && s in spans
    ensures ParentOf(spans, s.id)
            == (if s.parent.Some? && s.parent.value in Ids(spans) then s.parent else None)
  {
    forall t | t in spans && t.id == s.id ensures t == s {
      SameIdSameSpan(spans, s, t);
    }
  }

  lemma DistinctMultiset(spans: seq<Span>, s: Span)
    requires UniqueIds(spans)
    ensures multiset(spans)[s] == if s in spans then 1 else 0
  {
    if s in spans {
      var i :| 0 <= i < |spans| && spans[i] == s;
      assert spans == spans[..i] + [s] + spans[i + 1..];
    }
  }

  lemma PermutationUnique(spans: seq<Span>, q: seq<Span>)
    requires UniqueIds(spans) && multiset(q) == multiset(spans)
    ensures UniqueIds(q) && Ids(q) == Ids(spans)
  {
    PermutationFacts(q, spans);
    forall i, j | 0 <= i < j < |q| ensures q[i].id != q[j].id {
      if q[i].id == q[j].id {
        SameIdSameSpan(spans, q[i], q[j]);
        DistinctMultiset(spans, q[j]);
        SeenTwice(q, i, j);
      }
    }
  }

  lemma SeenTwice<T>(q: seq<T>, i: nat, j: nat)
    requires i < j < |q| && q[i] == q[j]
    ensures multiset(q)[q[j]] >= 2
  {
    assert q == q[..j] + [q[j]] + q[j + 1..];
    assert q[..j][i] == q[j] && q[j] in multiset(q[..j]);
    assert multiset(q) == multiset(q[..j]) + multiset{q[j]} + multiset(q[j + 1..]);
  }

  // ----- The greedy output is a parent-first ordering, and the least one -----

  lemma GreedyMembers(spans: seq<Span>, out: seq<Span>)
    requires Greedy(spans, out)
    ensures UniqueIds(out) && forall s | s in out :: s in spans
  {
    forall i, j | 0 <= i < j < |out| ensures out[i].id != out[j].id {
      assert LeastReady(spans, Ids(out[..j]), out[j]);
      assert out[i] in out[..j];
    }
    forall s | s in out ensures s in spans {
      var i :| 0 <= i < |out| && out[i] == s;
      assert LeastReady(spans, Ids(out[..i]), out[i]);
    }
  }

  lemma GreedyCompleteIsPermutation(spans: seq<Span>, out: seq<Span>)
    requires UniqueIds(spans) && Greedy(spans, out) && |out| == |spans|
    ensures multiset(out) == multiset(spans)
  {
    GreedyMembers(spans, out);
    forall s ensures multiset(out)[s] <= multiset(spans)[s] {
      DistinctMultiset(spans, s);
      DistinctMultiset(out, s);
    }
    assert multiset(spans) == multiset(out) + (multiset(spans) - multiset(out));
    assert |multiset(spans) - multiset(out)| == 0;
  }

  lemma GreedyIsParentFirst(spans: seq<Span>, out: seq<Span>)
    requires UniqueIds(spans) && Greedy(spans, out) && |out| == |spans|
    ensures ParentFirst(spans, out)
  {
    GreedyCompleteIsPermutation(spans, out);
    PermutationUnique(spans, out);
    forall i, j | 0 <= i < |out| && 0 <= j < |out| && out[j].parent == Some(out[i].id)
      ensures i < j
    {
      assert LeastReady(spans, Ids(out[..j]), out[j]);
      assert out[i].id in Ids(out);
      var t :| t in out[..j] && t.id == out[i].id;
    }
  }

  /** What any parent-first ordering places next is ready, so the greedy choice is no larger. */
  lemma NextIsReady(spans: seq<Span>, q: seq<Span>, k: nat)
    requires UniqueIds(spans) && ParentFirst(spans, q) && k < |q|
    ensures Ready(spans, Ids(q[..k]), q[k])
  {
    PermutationFacts(q, spans);
    PermutationUnique(spans, q);
    forall t | t in q[..k] ensures t.id != q[k].id {
      var i :| 0 <= i < k && q[i] == t;
    }
    if q[k].parent.Some? && q[k].parent.value in Ids(spans) {
      var t :| t in q && t.id == q[k].parent.value;
      var i :| 0 <= i < |q| && q[i] == t;
      assert q[i] in q[..k];
    }
  }

  lemma {:induction false} DifferAt(a: seq<Span>, b: seq<Span>) returns (k: nat)
    requires |a| == |b| && a != b
    ensures FirstDifference(a, b, k)
  {
    k := 0;
    while k < |a| && a[k] == b[k]
      invariant k <= |a| && forall m | 0 <= m < k :: a[m] == b[m]
    {
      k := k + 1;
    }
  }

  lemma GreedyIsLeast(spans: seq<Span>, out: seq<Span>, q: seq<Span>)
    requires UniqueIds(spans) && Greedy(spans, out) && |out| == |spans| && ParentFirst(spans, q)
    ensures LexLe(out, q)
  {
    PermutationFacts(q, spans);
    GreedyMembers(spans, out);
    if out != q {
      var k := DifferAt(out, q);
      NextIsReady(spans, q, k);
      assert out[..k] == q[..k];
      assert LeastReady(spans, Ids(out[..k]), out[k]);
      if out[k].id == q[k].id {
        SameIdSameSpan(spans, out[k], q[k]);
      }
    }
  }

  // ----- A stuck run means a cycle, and a cycle means no ordering exists -----

  lemma {:induction false} AncestorsComposes(spans: seq<Span>, id: string, i: nat, m: nat)
    requires Ancestor(spans, id, i).Some?
    ensures Ancestor(spans, id, i + m) == Ancestor(spans, Ancestor(spans, id, i).value, m)
  {
    if m > 0 {
      AncestorsComposes(spans, id, i, m - 1);
    }
  }

  lemma {:induction false} StuckChain(spans: seq<Span>, placed: set<string>, id: string, k: nat)
    requires UniqueIds(spans) && id in Ids(spans) && id !in placed
    requires forall s :: !Ready(spans, placed, s)
    ensures Ancestor(spans, id, k).Some?
    ensures Ancestor(spans, id, k).value in Ids(spans) && Ancestor(spans, id, k).value !in placed
  {
    if k > 0 {
      StuckChain(spans, placed, id, k - 1);
      var s :| s in spans && s.id == Ancestor(spans, id, k - 1).value;
      ParentOfSpan(spans, s);
      assert !Ready(spans, placed, s);
    }
  }

  lemma {:induction false} AncestorsInTrace(spans: seq<Span>, id: string, k: nat)
    requires id in Ids(spans) && Ancestor(spans, id, k).Some?
    ensures Ancestor(spans, id, k).value in Ids(spans)
  {
    if k > 0 {
      AncestorsInTrace(spans, id, k - 1);
    }
  }

  /** The ids of the first `n` links of a chain. */
  ghost function ChainIds(spans: seq<Span>, id: string, n: nat): set<string>
    requires NeverLeaves(spans, id)
  {
    set k: nat | k < n :: Ancestor(spans, id, k).value
  }

  lemma {:induction false} AcyclicChainGrows(spans: seq<Span>, id: string, n: nat)
    requires id in Ids(spans) && NeverLeaves(spans, id) && !HasCycle(spans)
    ensures |ChainIds(spans, id, n)| == n
  {
    if n == 0 {
      assert ChainIds(spans, id, 0) == {};
    } else {
      AcyclicChainGrows(spans, id, n - 1);
      var last := Ancestor(spans, id, n - 1).value;
      if last in ChainIds(spans, id, n - 1) {
        ReturningChainCycles(spans, id, n - 1);
      }
      hide HasCycle, Ancestor;
      assert ChainIds(spans, id, n) == ChainIds(spans, id, n - 1) + {last};
    }
  }

  lemma ReturningChainCycles(spans: seq<Span>, id: string, n: nat)
    requires id in Ids(spans) && NeverLeaves(spans, id) && Ancestor(spans, id, n).Some?
    requires Ancestor(spans, id, n).value in ChainIds(spans, id, n)
    ensures HasCycle(spans)
  {
    hide Ancestor;
    var last := Ancestor(spans, id, n).value;
    var i: nat :| i < n && Ancestor(spans, id, i).value == last;
    AncestorsComposes(spans, id, i, n - i);
    AncestorsInTrace(spans, id, i);
    assert OnCycle(spans, last, n - i);
  }

  lemma {:induction false} IdsCardinality(spans: seq<Span>)
    ensures |Ids(spans)| <= |spans|
  {
    if spans == [] {
      assert Ids(spans) == {};
    } else {
      IdsCardinality(spans[1..]);
      assert spans == [spans[0]] + spans[1..];
      assert Ids(spans) == {spans[0].id} + Ids(spans[1..]);
    }
  }

  /** Pigeonhole: an endless chain through finitely many spans repeats one of them. */
  lemma NeverLeavesIsCycle(spans: seq<Span>, id: string)
    requires id in Ids(spans) && NeverLeaves(spans, id)
    ensures HasCycle(spans)
  {
    if !HasCycle(spans) {
      var n := |spans| + 1;
      AcyclicChainGrows(spans, id, n);
      forall x | x in ChainIds(spans, id, n) ensures x in Ids(spans) {
        var k: nat :| k < n && Ancestor(spans, id, k).value == x;
        AncestorsInTrace(spans, id, k);
      }
      SubsetCardinality(ChainIds(spans, id, n), Ids(spans));
      IdsCardinality(spans);
    }
  }

  /** Walking up `k` links in a parent-first ordering moves at least `k` places to the front. */
  lemma {:induction false} AncestorsComeFirst(spans: seq<Span>, q: seq<Span>, j: nat, k: nat) returns (i: nat)
    requires UniqueIds(spans) && ParentFirst(spans, q) && j < |q|
    requires Ancestor(spans, q[j].id, k).Some?
    ensures i + k <= j && q[i].id == Ancestor(spans, q[j].id, k).value
  {
    PermutationFacts(q, spans);
    PermutationUnique(spans, q);
    if k == 0 {
      i := j;
    } else {
      var m := AncestorsComeFirst(spans, q, j, k - 1);
      ParentOfSpan(spans, q[m]);
      var t :| t in q && t.id == q[m].parent.value;
      i :| 0 <= i < |q| && q[i] == t;
    }
  }

  lemma CycleHasNoOrdering(spans: seq<Span>, q: seq<Span>)
    requires UniqueIds(spans) && HasCycle(spans)
    ensures !ParentFirst(spans, q)
  {
    if ParentFirst(spans, q) {
      PermutationUnique(spans, q);
      var id, k: nat :| OnCycle(spans, id, k);
      var s :| s in q && s.id == id;
      var j :| 0 <= j < |q| && q[j] == s;
      var i := AncestorsComeFirst(spans, q, j, k);
    }
  }

  lemma {:induction false} EarlierAncestorExists(spans: seq<Span>, id: string, m: nat, k: nat)
    requires m <= k && Ancestor(spans, id, k).Some?
    ensures Ancestor(spans, id, m).Some?
  {
    if m < k {
      EarlierAncestorExists(spans, id, m, k - 1);
    }
  }

  lemma {:induction false} CycleNeverLeaves(spans: seq<Span>, id: string, k: nat, m: nat)
    requires OnCycle(spans, id, k)
    ensures Ancestor(spans, id, m).Some?
  {
    if m <= k {
      EarlierAncestorExists(spans, id, m, k);
    } else {
      CycleNeverLeaves(spans, id, k, m - k);
      AncestorsComposes(spans, id, k, m - k);
    }
  }

  /** The cycle error is raised exactly when some parent chain stays inside the trace for ever. */
  lemma CycleIffChainNeverLeaves(spans: seq<Span>)
    ensures HasCycle(spans) <==> exists id :: id in Ids(spans) && NeverLeaves(spans, id)
  {
    if id, k: nat :| OnCycle(spans, id, k) {
      forall m: nat ensures Ancestor(spans, id, m).Some? {
        CycleNeverLeaves(spans, id, k, m);
      }
      assert NeverLeaves(spans, id);
    }
    if id :| id in Ids(spans) && NeverLeaves(spans, id) {
      NeverLeavesIsCycle(spans, id);
    }
  }

  // ----- Arrival order does not matter -----

  lemma LexLeAntisymmetric(a: seq<Span>, b: seq<Span>)
    requires LexLe(a, b) && LexLe(b, a)
    ensures a == b
  {
    if a != b {
      var i: nat :| FirstDifference(a, b, i) && Before(a[i], b[i]);
      var j: nat :| FirstDifference(b, a, j) && Before(b[j], a[j]);
      assert i == j;
      KeyOrderTotal(a[i].Key(), b[i].Key());
    }
  }

  lemma {:induction false} AncestorIgnoresArrival(spans: seq<Span>, arrived: seq<Span>, id: string, k: nat)
    requires UniqueIds(spans) && multiset(spans) == multiset(arrived) && id in Ids(spans)
    ensures Ancestor(spans, id, k) == Ancestor(arrived, id, k)
  {
    PermutationUnique(spans, arrived);
    if k > 0 {
      AncestorIgnoresArrival(spans, arrived, id, k - 1);
      if Ancestor(spans, id, k - 1).Some? {
        AncestorsInTrace(spans, id, k - 1);
        var s :| s in spans && s.id == Ancestor(spans, id, k - 1).value;
        PermutationFacts(spans, arrived);
        ParentOfSpan(spans, s);
        ParentOfSpan(arrived, s);
      }
    }
  }

  lemma CycleIgnoresArrival(spans: seq<Span>, arrived: seq<Span>)
    requires UniqueIds(spans) && multiset(spans) == multiset(arrived) && HasCycle(spans)
    ensures HasCycle(arrived)
  {
    var id, k: nat :| OnCycle(spans, id, k);
    PermutationUnique(spans, arrived);
    AncestorIgnoresArrival(spans, arrived, id, k);
    assert OnCycle(arrived, id, k);
  }

  /** What `OrderSpansParentFirst` promises about its result. */
  ghost predicate SortsTo(prepared: seq<Span>, r: Result<seq<Span>, OrderError>) {
    && (r == Err(DuplicateSpanId) <==> !UniqueIds(prepared))
    && (r == Err(ParentCycle) <==> UniqueIds(prepared) && HasCycle(prepared))
    && (r.Ok? ==> LeastParentFirst(prepared, r.value))
  }

  /** Two arrivals of the same spans sort to the same sequence, or raise the same error. */
  lemma OrderIgnoresArrival(spans: seq<Span>, arrived: seq<Span>,
                            r: Result<seq<Span>, OrderError>, r': Result<seq<Span>, OrderError>)
    requires multiset(spans) == multiset(arrived)
    requires SortsTo(spans, r) && SortsTo(arrived, r')
    ensures r == r'
  {
    if UniqueIds(spans) {
      PermutationUnique(spans, arrived);
    }
    if UniqueIds(arrived) {
      PermutationUnique(arrived, spans);
      if HasCycle(spans) {
        CycleIgnoresArrival(spans, arrived);
      }
      if HasCycle(arrived) {
        CycleIgnoresArrival(arrived, spans);
      }
    }
    assert r.Err? ==> r.error == DuplicateSpanId || r.error == ParentCycle;
    assert r'.Err? ==> r'.error == DuplicateSpanId || r'.error == ParentCycle;
    if r.Ok? && r'.Ok? {
      assert ParentFirst(spans, r'.value) && ParentFirst(arrived, r.value);
      LexLeAntisymmetric(r.value, r'.value);
    }
  }

  lemma StuckIsCycle(spans: seq<Span>, out: seq<Span>)
    requires UniqueIds(spans) && Greedy(spans, out) && |out| != |spans|
    requires forall s :: !Ready(spans, Ids(out), s)
    ensures HasCycle(spans)
  {
    GreedyMembers(spans, out);
    if forall s | s in spans :: s in out {
      forall s ensures multiset(out)[s] == multiset(spans)[s] {
        DistinctMultiset(spans, s);
        DistinctMultiset(out, s);
      }
      assert multiset(out) == multiset(spans);
      PermutationFacts(out, spans);
    } else {
      var s :| s in spans && s !in out;
      forall t | t in out ensures t.id != s.id {
        if t.id == s.id {
          SameIdSameSpan(spans, s, t);
        }
      }
      forall k: nat ensures Ancestor(spans, s.id, k).Some? {
        StuckChain(spans, Ids(out), s.id, k);
      }
      NeverLeavesIsCycle(spans, s.id);
    }
  }

  // ----- The index structures the sort keeps -----

  /** Ids of the spans that name `p` as parent, in arrival order. */
  function ChildrenOf(spans: seq<Span>, p: string): seq<string> {
    if spans == [] then
      []
    else
      var n := |spans| - 1;
      ChildrenOf(spans[..n], p) + (if spans[n].parent == Some(p) then [spans[n].id] else [])
  }

  lemma {:induction false} ChildrenOfMembers(spans: seq<Span>, p: string)
    ensures forall c :: c in ChildrenOf(spans, p)
                        <==> exists s :: s in spans && s.id == c && s.parent == Some(p)
  {
    if spans != [] {
      var n := |spans| - 1;
      ChildrenOfMembers(spans[..n], p);
      assert spans == spans[..n] + [spans[n]];
      forall c ensures c in ChildrenOf(spans, p)
                       <==> exists s :: s in spans && s.id == c && s.parent == Some(p)
      {
        if c in ChildrenOf(spans[..n], p) {
          var s :| s in spans[..n] && s.id == c && s.parent == Some(p);
          assert s in spans;
        }
        if s :| s in spans && s.id == c && s.parent == Some(p) {
          assert s in spans[..n] || s == spans[n];
        }
      }
    }
  }

  lemma {:induction false} ChildrenOfDistinct(spans: seq<Span>, p: string)
    requires UniqueIds(spans)
    ensures forall i, j | 0 <= i < j < |ChildrenOf(spans, p)| :: ChildrenOf(spans, p)[i] != ChildrenOf(spans, p)[j]
  {
    if spans != [] {
      var n := |spans| - 1;
      ChildrenOfDistinct(spans[..n], p);
      ChildrenOfMembers(spans[..n], p);
      var front := ChildrenOf(spans[..n], p);
      forall i | 0 <= i < |front| ensures front[i] != spans[n].id {
        assert front[i] in front;
        var s :| s in spans[..n] && s.id == front[i];
      }
    }
  }

  /** Keys of the spans that are ready once `placed` have been output. */
  ghost function ReadyKeys(spans: seq<Span>, placed: set<string>): set<Key> {
    set s | s in spans && Ready(spans, placed, s) :: s.Key()
  }

  /** Python's `indegree` while `placed` are output and `released` children already decremented. */
  ghost predicate IndegreeIs(spans: seq<Span>, indegree: map<string, nat>, placed: set<string>, released: seq<string>) {
    && indegree.Keys == Ids(spans)
    && forall s | s in spans ::
         indegree[s.id] == if s.parent.Some? && s.parent.value in Ids(spans) && s.parent.value !in placed
                              && s.id !in released then 1 else 0
  }

  ghost function KeysOf(byId: map<string, Span>, ids: seq<string>): set<Key>
    requires forall c | c in ids :: c in byId
  {
    set c | c in ids :: byId[c].Key()
  }

  ghost predicate Indexes(spans: seq<Span>, byId: map<string, Span>) {
    byId.Keys == Ids(spans) && forall s | s in spans :: byId[s.id] == s
  }

  /** Placing `id` makes exactly its children ready. */
  lemma PlacingReleasesChildren(spans: seq<Span>, byId: map<string, Span>, placed: set<string>, s: Span)
    requires UniqueIds(spans) && Indexes(spans, byId) && Ready(spans, placed, s)
    requires forall t | t in spans && t.id in placed && t.parent.Some? && t.parent.value in Ids(spans)
               :: t.parent.value in placed
    ensures forall c | c in ChildrenOf(spans, s.id) :: c in byId
    ensures ReadyKeys(spans, placed + {s.id})
            == ReadyKeys(spans, placed) - {s.Key()} + KeysOf(byId, ChildrenOf(spans, s.id))
  {
    ChildrenOfMembers(spans, s.id);
    var kids := ChildrenOf(spans, s.id);
    forall c | c in kids ensures c in byId && byId[c] in spans && byId[c].parent == Some(s.id) {
      var t :| t in spans && t.id == c && t.parent == Some(s.id);
      assert byId[t.id] == t;
    }
    var before, after := ReadyKeys(spans, placed), ReadyKeys(spans, placed + {s.id});
    forall k | k in after ensures k in before - {s.Key()} + KeysOf(byId, kids) {
      var t :| t in spans && Ready(spans, placed + {s.id}, t) && t.Key() == k;
      if t.parent == Some(s.id) {
        assert t.id in kids && byId[t.id] == t;
      } else {
        assert Ready(spans, placed, t);
      }
    }
    forall k | k in before - {s.Key()} ensures k in after {
      var t :| t in spans && Ready(spans, placed, t) && t.Key() == k;
      if t.id == s.id {
        SameIdSameSpan(spans, s, t);
      }
      assert Ready(spans, placed + {s.id}, t);
    }
    forall k | k in KeysOf(byId, kids) ensures k in after {
      var c :| c in kids && byId[c].Key() == k;
      var t := byId[c];
      assert byId[t.id] == t;
      assert Ready(spans, placed + {s.id}, t);
    }
  }

  /** Along a greedy run the placed spans are closed under in-trace parents. */
  lemma GreedyClosed(spans: seq<Span>, out: seq<Span>)
    requires UniqueIds(spans) && Greedy(spans, out)
    ensures forall t | t in spans && t.id in Ids(out) && t.parent.Some? && t.parent.value in Ids(spans)
              :: t.parent.value in Ids(out)
  {
    GreedyMembers(spans, out);
    forall t | t in spans && t.id in Ids(out) && t.parent.Some? && t.parent.value in Ids(spans)
      ensures t.parent.value in Ids(out)
    {
      var u :| u in out && u.id == t.id;
      SameIdSameSpan(spans, t, u);
      var i :| 0 <= i < |out| && out[i] == t;
      assert LeastReady(spans, Ids(out[..i]), out[i]);
    }
  }

  lemma UniqueIdsExtend(seen: seq<Span>, s: Span)
    ensures UniqueIds(seen + [s]) <==> UniqueIds(seen) && s.id !in Ids(seen)
    ensures Ids(seen + [s]) == Ids(seen) + {s.id}
  {
    var both := seen + [s];
    assert forall i | 0 <= i < |seen| :: both[i] == seen[i] && seen[i] in seen;
    if UniqueIds(both) {
      forall t | t in seen ensures t.id != s.id {
        var j :| 0 <= j < |seen| && seen[j] == t;
        assert both[j] == t && both[|seen|] == s;
      }
    }
  }

  lemma LeastKeyIsLeastReady(spans: seq<Span>, byId: map<string, Span>, placed: set<string>, least: Key)
    requires Indexes(spans, byId) && least in ReadyKeys(spans, placed)
    requires forall k | k in ReadyKeys(spans, placed) :: KeyLe(least, k)
    ensures least.id in byId && byId[least.id].Key() == least && byId[least.id].id == least.id
    ensures LeastReady(spans, placed, byId[least.id]) && Ready(spans, placed, byId[least.id])
  {
    var s :| s in spans && Ready(spans, placed, s) && s.Key() == least;
    assert byId[s.id] == s;
    forall t | Ready(spans, placed, t) ensures KeyLe(s.Key(), t.Key()) {
      assert t.Key() in ReadyKeys(spans, placed);
    }
  }

  lemma GreedyBounded(spans: seq<Span>, out: seq<Span>)
    requires UniqueIds(spans) && Greedy(spans, out)
    ensures |out| <= |spans|
  {
    GreedyMembers(spans, out);
    forall t ensures multiset(out)[t] <= multiset(spans)[t] {
      DistinctMultiset(spans, t);
      DistinctMultiset(out, t);
    }
    assert multiset(spans) == multiset(out) + (multiset(spans) - multiset(out));
  }

  lemma GreedyExtends(spans: seq<Span>, out: seq<Span>, s: Span)
    requires UniqueIds(spans) && Greedy(spans, out) && LeastReady(spans, Ids(out), s)
    ensures Greedy(spans, out + [s]) && |out| + 1 <= |spans|
    ensures Ids(out + [s]) == Ids(out) + {s.id}
  {
    var longer := out + [s];
    forall i | 0 <= i < |longer| ensures LeastReady(spans, Ids(longer[..i]), longer[i]) {
      assert longer[..i] == if i < |out| then out[..i] else out;
    }
    GreedyBounded(spans, longer);
    UniqueIdsExtend(out, s);
  }

  /** Popping the least queued key leaves exactly the other ready keys. */
  lemma LeastQueued(queued: seq<Key>, keys: set<Key>, least: Key, rest: multiset<Key>)
    requires multiset(queued) == multiset(keys) == rest + multiset{least}
    requires forall k | k in queued ::
               || least.start < k.start
               || (least.start == k.start && least.end < k.end)
               || (least.start == k.start && least.end == k.end && (least.id == k.id || StrLt(least.id, k.id)))
    ensures least in keys && rest == multiset(keys - {least})
    ensures forall k | k in keys :: KeyLe(least, k)
  {
    assert multiset(keys)[least] >= 1;
    forall k | k in keys ensures KeyLe(least, k) {
      assert k in multiset(queued);
    }
    forall k ensures rest[k] == multiset(keys - {least})[k] {
      assert multiset(keys)[k] == rest[k] + multiset{least}[k];
    }
  }

  lemma ChildFacts(spans: seq<Span>, byId: map<string, Span>, p: string, c: string)
    requires UniqueIds(spans) && Indexes(spans, byId) && c in ChildrenOf(spans, p)
    ensures c in byId && byId[c] in spans && byId[c].id == c && byId[c].parent == Some(p)
  {
    ChildrenOfMembers(spans, p);
    var t :| t in spans && t.id == c && t.parent == Some(p);
    assert byId[t.id] == t;
  }

  /** The next child still has its one pending parent; decrementing it releases just that child. */
  lemma ReleaseIndegree(spans: seq<Span>, byId: map<string, Span>, placed: set<string>, s: Span,
                        j: nat, indegree: map<string, nat>)
    requires UniqueIds(spans) && Indexes(spans, byId) && Ready(spans, placed, s)
    requires j < |ChildrenOf(spans, s.id)|
    requires IndegreeIs(spans, indegree, placed, ChildrenOf(spans, s.id)[..j])
    ensures ChildrenOf(spans, s.id)[j] in byId
    ensures indegree[ChildrenOf(spans, s.id)[j]] == 1
    ensures IndegreeIs(spans, indegree[ChildrenOf(spans, s.id)[j] := 0], placed, ChildrenOf(spans, s.id)[..j + 1])
  {
    hide *;
    var kids := ChildrenOf(spans, s.id);
    assert kids[j] in kids && kids[..j + 1] == kids[..j] + [kids[j]];
    ChildFacts(spans, byId, s.id, kids[j]);
    ChildrenOfDistinct(spans, s.id);
    assert kids[j] !in kids[..j];
    ReadyInTrace(spans, placed, s);
    ReleasedIndegree(spans, byId[kids[j]], s.id, placed, kids[..j], indegree);
  }

  lemma ReadyInTrace(spans: seq<Span>, placed: set<string>, s: Span)
    requires Ready(spans, placed, s)
    ensures s in spans && s.id in Ids(spans) && s.id !in placed
  {
  }

  lemma ReleasedIndegree(spans: seq<Span>, c: Span, parent: string, placed: set<string>, released: seq<string>,
                         indegree: map<string, nat>)
    requires UniqueIds(spans) && c in spans && c.id !in released
    requires c.parent == Some(parent) && parent in Ids(spans) && parent !in placed
    requires IndegreeIs(spans, indegree, placed, released)
    ensures c.id in indegree && indegree[c.id] == 1
    ensures IndegreeIs(spans, indegree[c.id := 0], placed, released + [c.id])
  {
  }

  /** The key of a released child is not queued yet. */
  lemma ReleaseIsFresh(spans: seq<Span>, byId: map<string, Span>, placed: set<string>, s: Span, j: nat)
    requires UniqueIds(spans) && Indexes(spans, byId) && Ready(spans, placed, s)
    requires j < |ChildrenOf(spans, s.id)|
    ensures forall c | c in ChildrenOf(spans, s.id) :: c in byId
    ensures byId[ChildrenOf(spans, s.id)[j]].Key() !in ReadyKeys(spans, placed)
    ensures byId[ChildrenOf(spans, s.id)[j]].Key() !in KeysOf(byId, ChildrenOf(spans, s.id)[..j])
  {
    var kids := ChildrenOf(spans, s.id);
    forall c | c in kids ensures c in byId && byId[c].id == c {
      ChildFacts(spans, byId, s.id, c);
    }
    ChildFacts(spans, byId, s.id, kids[j]);
    ChildrenOfDistinct(spans, s.id);
    var t := byId[kids[j]];
    assert kids[j] !in kids[..j];
  }

  lemma IndegreeAfter(spans: seq<Span>, indegree: map<string, nat>, placed: set<string>, s: Span)
    requires UniqueIds(spans) && Ready(spans, placed, s)
    requires IndegreeIs(spans, indegree, placed, ChildrenOf(spans, s.id))
    ensures IndegreeIs(spans, indegree, placed + {s.id}, [])
  {
    ChildrenOfMembers(spans, s.id);
    forall t | t in spans
      ensures t.id in ChildrenOf(spans, s.id) <==> t.parent == Some(s.id)
    {
      if t.id in ChildrenOf(spans, s.id) {
        var u :| u in spans && u.id == t.id && u.parent == Some(s.id);
        SameIdSameSpan(spans, t, u);
      }
    }
  }

  // ----- The sort itself -----

  /** `children[p]` of Python's defaultdict. */
  function Children(children: map<string, seq<string>>, p: string): seq<string> {
    if p in children then children[p] else []
  }

  /** `byId` holds the spans of `seen`; it is shorter exactly when an id repeated. */
  ghost predicate Indexed(seen: seq<Span>, byId: map<string, Span>) {
    && byId.Keys == Ids(seen) && |byId| <= |seen|
    && (UniqueIds(seen) <==> |byId| == |seen|)
    && (UniqueIds(seen) ==> Indexes(seen, byId))
  }

  lemma IndexedStep(seen: seq<Span>, s: Span, byId: map<string, Span>)
    requires Indexed(seen, byId)
    ensures Indexed(seen + [s], byId[s.id := s])
  {
    UniqueIdsExtend(seen, s);
    var next := byId[s.id := s];
    assert next.Keys == byId.Keys + {s.id};
    assert |next.Keys| == |byId.Keys| + if s.id in byId then 0 else 1;
    if UniqueIds(seen + [s]) {
      forall t | t in seen + [s] ensures next[t.id] == t {
      }
    }
  }

  /** Builds `by_id`; it is as long as the input exactly when the ids are unique. */
  method IndexById(prepared: seq<Span>) returns (byId: map<string, Span>)
    ensures UniqueIds(prepared) <==> |byId| == |prepared|
    ensures UniqueIds(prepared) ==> Indexes(prepared, byId)
  {
    byId := map[];
    for i := 0 to |prepared|
      invariant Indexed(prepared[..i], byId)
    {
      assert prepared[..i + 1] == prepared[..i] + [prepared[i]];
      IndexedStep(prepared[..i], prepared[i], byId);
      byId := byId[prepared[i].id := prepared[i]];
    }
    assert prepared[..|prepared|] == prepared;
  }

  /** The child index and indegrees after the spans of `seen` were linked. */
  ghost predicate Linked(prepared: seq<Span>, seen: seq<Span>, byId: map<string, Span>,
                         children: map<string, seq<string>>, indegree: map<string, nat>)
  {
    && indegree.Keys == byId.Keys
    && (forall p | p in byId :: Children(children, p) == ChildrenOf(seen, p))
    && (forall s | s in prepared :: s.id in indegree && indegree[s.id] == Pending(byId, seen, s))
  }

  ghost function Pending(byId: map<string, Span>, seen: seq<Span>, s: Span): nat {
    if s in seen && s.parent.Some? && s.parent.value in byId then 1 else 0
  }

  lemma ChildrenOfExtend(seen: seq<Span>, s: Span, p: string)
    ensures ChildrenOf(seen + [s], p) == ChildrenOf(seen, p) + if s.parent == Some(p) then [s.id] else []
  {
    assert (seen + [s])[..|seen|] == seen;
  }

  /** Linking `s` adds it to its in-trace parent's children and gives it one pending parent. */
  lemma LinkedStep(prepared: seq<Span>, seen: seq<Span>, s: Span, byId: map<string, Span>,
                   children: map<string, seq<string>>, indegree: map<string, nat>)
    requires UniqueIds(prepared) && s in prepared && s.id in byId
    requires Linked(prepared, seen, byId, children, indegree) && s !in seen
    ensures s.parent.Some? && s.parent.value in byId ==>
              Linked(prepared, seen + [s], byId,
                     children[s.parent.value := Children(children, s.parent.value) + [s.id]], indegree[s.id := 1])
    ensures !(s.parent.Some? && s.parent.value in byId) ==> Linked(prepared, seen + [s], byId, children, indegree)
  {
    hide ChildrenOf, Pending;
    forall p ensures ChildrenOf(seen + [s], p) == ChildrenOf(seen, p) + if s.parent == Some(p) then [s.id] else [] {
      ChildrenOfExtend(seen, s, p);
    }
    forall t | t in prepared
      ensures Pending(byId, seen, s) == 0
      ensures Pending(byId, seen + [s], t)
              == if t.id == s.id then (if s.parent.Some? && s.parent.value in byId then 1 else 0) else Pending(byId, seen, t)
    {
      PendingStep(prepared, seen, s, byId, t);
    }
  }

  lemma PendingStep(prepared: seq<Span>, seen: seq<Span>, s: Span, byId: map<string, Span>, t: Span)
    requires UniqueIds(prepared) && s in prepared && t in prepared && s !in seen
    ensures Pending(byId, seen, s) == 0
    ensures Pending(byId, seen + [s], t)
            == if t.id == s.id then (if s.parent.Some? && s.parent.value in byId then 1 else 0) else Pending(byId, seen, t)
  {
    if t.id == s.id {
      SameIdSameSpan(prepared, s, t);
    }
  }

  lemma NotSeen(prepared: seq<Span>, i: nat)
    requires UniqueIds(prepared) && i < |prepared|
    ensures prepared[i] !in prepared[..i]
  {
  }

  lemma LinkedEnds(prepared: seq<Span>, byId: map<string, Span>,
                   children: map<string, seq<string>>, indegree: map<string, nat>)
    requires Indexes(prepared, byId) && Linked(prepared, prepared, byId, children, indegree)
    ensures IndegreeIs(prepared, indegree, {}, [])
    ensures forall p | p in byId :: Children(children, p) == ChildrenOf(prepared, p)
  {
  }

  lemma LinkedStarts(prepared: seq<Span>, byId: map<string, Span>)
    requires Indexes(prepared, byId)
    ensures Linked(prepared, [], byId, map[], map id | id in byId :: 0)
    ensures forall s | s in prepared :: s.id in byId
  {
  }

  /** Builds the child index and the indegrees. */
  method LinkChildren(prepared: seq<Span>, byId: map<string, Span>)
    returns (children: map<string, seq<string>>, indegree: map<string, nat>)
    requires UniqueIds(prepared) && Indexes(prepared, byId)
    ensures forall p | p in byId :: Children(children, p) == ChildrenOf(prepared, p)
    ensures IndegreeIs(prepared, indegree, {}, [])
  {
    hide *;
    children := map[];
    indegree := map id | id in byId :: 0;
    LinkedStarts(prepared, byId);
    assert prepared[..0] == [];
    for i := 0 to |prepared|
      invariant Linked(prepared, prepared[..i], byId, children, indegree)
    {
      var s := prepared[i];
      assert prepared[..i + 1] == prepared[..i] + [s];
      NotSeen(prepared, i);
      LinkedStep(prepared, prepared[..i], s, byId, children, indegree);
      if s.parent.Some? && s.parent.value in byId {
        children := children[s.parent.value := Children(children, s.parent.value) + [s.id]];
        indegree := indegree[s.id := 1];
      }
    }
    assert prepared[..|prepared|] == prepared;
    LinkedEnds(prepared, byId, children, indegree);
  }

  /** Queues every span without a pending parent. */
  method SeedReady(prepared: seq<Span>, indegree: map<string, nat>) returns (ready: MinHeap)
    requires UniqueIds(prepared) && IndegreeIs(prepared, indegree, {}, [])
    ensures fresh(ready) && ready.Valid()
    ensures multiset(ready.items) == multiset(ReadyKeys(prepared, {}))
  {
    hide *;
    ready := new MinHeap();
    RootKeysEnds(prepared);
    for i := 0 to |prepared|
      invariant ready.Valid() && fresh(ready)
      invariant multiset(ready.items) == multiset(RootKeys(prepared, i))
    {
      RootKeysStep(prepared, i);
      RootIndegree(prepared, indegree, prepared[i]);
      if indegree[prepared[i].id] == 0 {
        ready.Push(prepared[i].Key());
      }
    }
  }

  /** Keys of the spans among the first `i` that start out ready. */
  ghost function RootKeys(prepared: seq<Span>, i: nat): set<Key>
    requires i <= |prepared|
  {
    set s | s in prepared[..i] && Ready(prepared, {}, s) :: s.Key()
  }

  lemma RootKeysEnds(prepared: seq<Span>)
    ensures RootKeys(prepared, 0) == {} && RootKeys(prepared, |prepared|) == ReadyKeys(prepared, {})
  {
    assert prepared[..|prepared|] == prepared;
  }

  lemma RootIndegree(prepared: seq<Span>, indegree: map<string, nat>, s: Span)
    requires IndegreeIs(prepared, indegree, {}, []) && s in prepared
    ensures s.id in indegree && (indegree[s.id] == 0 <==> Ready(prepared, {}, s))
  {
  }

  lemma IndegreeKeys(prepared: seq<Span>, byId: map<string, Span>, indegree: map<string, nat>,
                     placed: set<string>, released: seq<string>)
    requires Indexes(prepared, byId) && IndegreeIs(prepared, indegree, placed, released)
    ensures forall id | id in byId :: id in indegree
  {
  }

  lemma RootKeysStep(prepared: seq<Span>, i: nat)
    requires i < |prepared| && UniqueIds(prepared)
    ensures prepared[i].Key() !in RootKeys(prepared, i)
    ensures RootKeys(prepared, i + 1)
            == RootKeys(prepared, i) + if Ready(prepared, {}, prepared[i]) then {prepared[i].Key()} else {}
  {
    assert prepared[..i + 1] == prepared[..i] + [prepared[i]];
    forall t | t in prepared[..i] ensures t.id != prepared[i].id {
      var j :| 0 <= j < i && prepared[j] == t;
    }
  }

  /** Decrements the children of the span just placed and queues those that became ready. */
  method ReleaseChildren(prepared: seq<Span>, byId: map<string, Span>, kids: seq<string>, ready: MinHeap,
                         indegree: map<string, nat>, ghost placed: set<string>, ghost s: Span)
    returns (updated: map<string, nat>)
    requires UniqueIds(prepared) && Indexes(prepared, byId) && Ready(prepared, placed, s)
    requires kids == ChildrenOf(prepared, s.id) && ready.Valid()
    requires multiset(ready.items) == multiset(ReadyKeys(prepared, placed) - {s.Key()})
    requires IndegreeIs(prepared, indegree, placed, [])
    modifies ready
    ensures ready.Valid() && forall c | c in kids :: c in byId
    ensures multiset(ready.items)
            == multiset(ReadyKeys(prepared, placed) - {s.Key()} + KeysOf(byId, kids))
    ensures IndegreeIs(prepared, updated, placed, kids)
  {
    hide *;
    ghost var others := ReadyKeys(prepared, placed) - {s.Key()};
    updated := indegree;
    forall c | c in kids ensures c in byId {
      ChildFacts(prepared, byId, s.id, c);
    }
    KeysOfNone(byId);
    assert kids[..0] == [];
    for j := 0 to |kids|
      invariant ready.Valid()
      invariant IndegreeIs(prepared, updated, placed, kids[..j])
      invariant multiset(ready.items) == multiset(others + KeysOf(byId, kids[..j]))
    {
      ReleaseIndegree(prepared, byId, placed, s, j, updated);
      ReleaseIsFresh(prepared, byId, placed, s, j);
      IndegreeKeys(prepared, byId, updated, placed, kids[..j]);
      KeysOfStep(byId, kids, j);
      updated := updated[kids[j] := updated[kids[j]] - 1];
      if updated[kids[j]] == 0 {
        ready.Push(byId[kids[j]].Key());
      }
    }
    assert kids[..|kids|] == kids;
  }

  lemma KeysOfNone(byId: map<string, Span>)
    ensures KeysOf(byId, []) == {}
  {
  }

  lemma KeysOfStep(byId: map<string, Span>, ids: seq<string>, j: nat)
    requires j < |ids| && forall c | c in ids :: c in byId
    ensures KeysOf(byId, ids[..j + 1]) == KeysOf(byId, ids[..j]) + {byId[ids[j]].Key()}
  {
    assert ids[..j + 1] == ids[..j] + [ids[j]];
  }

  /** `prepared` in parent-first order, or the error the adapter raises. */
  method OrderSpansParentFirst(prepared: seq<Span>) returns (r: Result<seq<Span>, OrderError>)
    ensures r == Err(DuplicateSpanId) <==> !UniqueIds(prepared)
    ensures r == Err(ParentCycle) <==> UniqueIds(prepared) && HasCycle(prepared)
    ensures r.Ok? ==> LeastParentFirst(prepared, r.value)
    ensures SortsTo(prepared, r)
  {
    hide *;
    var byId := IndexById(prepared);
    if |byId| != |prepared| {
      r := Err(DuplicateSpanId);
      Conclude(prepared, r);
      return;
    }
    var children, indegree := LinkChildren(prepared, byId);
    var ready := SeedReady(prepared, indegree);
    var ordered: seq<Span> := [];
    NothingPlaced(prepared);
    while ready.items != []
      invariant ready.Valid() && fresh(ready)
      invariant Greedy(prepared, ordered) && |ordered| <= |prepared|
      invariant multiset(ready.items) == multiset(ReadyKeys(prepared, Ids(ordered)))
      invariant IndegreeIs(prepared, indegree, Ids(ordered), [])
      decreases |prepared| - |ordered|
    {
      ghost var placed := Ids(ordered);
      ghost var queued := ready.items;
      var least := ready.Pop();
      LeastQueued(queued, ReadyKeys(prepared, placed), least, multiset(ready.items));
      LeastKeyIsLeastReady(prepared, byId, placed, least);
      var s := byId[least.id];
      GreedyClosed(prepared, ordered);
      PlacingReleasesChildren(prepared, byId, placed, s);
      GreedyExtends(prepared, ordered, s);
      ordered := ordered + [s];
      indegree := ReleaseChildren(prepared, byId, Children(children, s.id), ready, indegree, placed, s);
      IndegreeAfter(prepared, indegree, placed, s);
    }
    NothingQueued(prepared, Ids(ordered));
    if |ordered| != |prepared| {
      StuckIsCycle(prepared, ordered);
      r := Err(ParentCycle);
    } else {
      CompleteRun(prepared, ordered);
      r := Ok(ordered);
    }
    Conclude(prepared, r);
  }

  lemma Conclude(prepared: seq<Span>, r: Result<seq<Span>, OrderError>)
    requires r == Err(DuplicateSpanId) <==> !UniqueIds(prepared)
    requires r == Err(ParentCycle) <==> UniqueIds(prepared) && HasCycle(prepared)
    requires r.Ok? ==> LeastParentFirst(prepared, r.value)
    ensures SortsTo(prepared, r)
  {
  }

  lemma NothingPlaced(spans: seq<Span>)
    ensures Ids([]) == {} && Greedy(spans, [])
  {
  }

  lemma NothingQueued(spans: seq<Span>, placed: set<string>)
    requires multiset(ReadyKeys(spans, placed)) == multiset{}
    ensures forall s :: !Ready(spans, placed, s)
  {
    forall s ensures Ready(spans, placed, s) ==> s.Key() in multiset(ReadyKeys(spans, placed)) {
    }
  }

  lemma CompleteRun(spans: seq<Span>, out: seq<Span>)
    requires UniqueIds(spans) && Greedy(spans, out) && |out| == |spans|
    ensures LeastParentFirst(spans, out) && !HasCycle(spans)
  {
    GreedyIsParentFirst(spans, out);
    if HasCycle(spans) {
      CycleHasNoOrdering(spans, out);
    }
    forall q | ParentFirst(spans, q) ensures LexLe(out, q) {
      GreedyIsLeast(spans, out, q);
    }
  }
}
