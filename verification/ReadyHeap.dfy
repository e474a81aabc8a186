/** A binary min-heap over (start, end, span id), the queue `heapq` keeps for the span sort. */
module ReadyHeap {
  import opened Ordering

  datatype Key = Key(start: int, end: int, id: string)

  /** Python's `<` on the tuples (start, end, span_id). */
  predicate KeyLt(a: Key, b: Key) {
    || a.start < b.start
    || (a.start == b.start && a.end < b.end)
    || (a.start == b.start && a.end == b.end && StrLt(a.id, b.id))
  }

  predicate KeyLe(a: Key, b: Key) {
    a == b || KeyLt(a, b)
  }

  lemma KeyOrderTotal(a: Key, b: Key)
    ensures KeyLe(a, b) || KeyLt(b, a)
    ensures !(KeyLe(a, b) && KeyLt(b, a))
  {
    StrLtTrichotomy(a.id, b.id);
  }

  lemma KeyLeTransitive(a: Key, b: Key, c: Key)
    requires KeyLe(a, b) && KeyLe(b, c)
    ensures KeyLe(a, c)
    ensures a != b ==> KeyLt(a, c)
  {
    if StrLt(a.id, b.id) && StrLt(b.id, c.id) {
      StrLtTransitive(a.id, b.id, c.id);
    }
  }

  /** The entry at `i` is no smaller than its parent in the heap. */
  ghost predicate ParentLe(s: seq<Key>, i: nat)
    requires 1 <= i < |s|
  {
    KeyLe(s[(i - 1) / 2], s[i])
  }

  ghost predicate HeapOrdered(s: seq<Key>) {
    forall i | 1 <= i < |s| :: ParentLe(s, i)
  }

  lemma {:induction false} RootIsLeast(s: seq<Key>, i: nat)
    requires HeapOrdered(s) && i < |s|
    ensures KeyLe(s[0], s[i])
  {
    if i > 0 {
      RootIsLeast(s, (i - 1) / 2);
      assert ParentLe(s, i);
      KeyLeTransitive(s[0], s[(i - 1) / 2], s[i]);
    }
  }

  function Swapped(s: seq<Key>, i: nat, j: nat): (r: seq<Key>)
    requires i < |s| && j < |s|
    ensures |r| == |s| && multiset(r) == multiset(s)
  {
    s[i := s[j]][j := s[i]]
  }

  /** The children of `hole` are no smaller than its parent. */
  ghost predicate Grandparent(s: seq<Key>, hole: nat)
    requires hole < |s|
  {
    hole > 0 ==>
      && (2 * hole + 1 < |s| ==> KeyLe(s[(hole - 1) / 2], s[2 * hole + 1]))
      && (2 * hole + 2 < |s| ==> KeyLe(s[(hole - 1) / 2], s[2 * hole + 2]))
  }

  /** All parent links hold except the one above `hole`. */
  ghost predicate OrderedExceptAbove(s: seq<Key>, hole: nat)
    requires hole < |s|
  {
    && (forall i | 1 <= i < |s| && i != hole :: ParentLe(s, i))
    && Grandparent(s, hole)
  }

  /** All parent links hold except those below `hole`. */
  ghost predicate OrderedExceptBelow(s: seq<Key>, hole: nat)
    requires hole < |s|
  {
    && (forall i | 1 <= i < |s| && i != 2 * hole + 1 && i != 2 * hole + 2 :: ParentLe(s, i))
    && Grandparent(s, hole)
  }

  lemma SwapUp(s: seq<Key>, i: nat)
    requires 0 < i < |s| && OrderedExceptAbove(s, i) && KeyLt(s[i], s[(i - 1) / 2])
    ensures OrderedExceptAbove(Swapped(s, i, (i - 1) / 2), (i - 1) / 2)
  {
    var p := (i - 1) / 2;
    var t := Swapped(s, i, p);
    forall j: nat | 1 <= j < |t| && j != p ensures ParentLe(t, j) {
      if j != i {
        assert ParentLe(s, j);
        if (j - 1) / 2 == p {
          KeyLeTransitive(s[i], s[p], s[j]);
        }
      }
    }
    if p > 0 {
      assert ParentLe(s, p);
      forall j | 2 * p + 1 <= j <= 2 * p + 2 && j < |t| ensures KeyLe(t[(p - 1) / 2], t[j]) {
        if j != i {
          assert ParentLe(s, j);
          KeyLeTransitive(s[(p - 1) / 2], s[p], s[j]);
        }
      }
    }
  }

  /** `c` is the least child of `i`. */
  ghost predicate LeastChild(s: seq<Key>, i: nat, c: nat) {
    && c < |s| && (c == 2 * i + 1 || c == 2 * i + 2)
    && KeyLe(s[c], s[2 * i + 1])
    && (2 * i + 2 < |s| ==> KeyLe(s[c], s[2 * i + 2]))
  }

  lemma SwapDown(s: seq<Key>, i: nat, c: nat)
    requires i < |s| && LeastChild(s, i, c) && OrderedExceptBelow(s, i) && KeyLt(s[c], s[i])
    ensures OrderedExceptBelow(Swapped(s, i, c), c)
  {
    var t := Swapped(s, i, c);
    forall j: nat | 1 <= j < |t| && j != 2 * c + 1 && j != 2 * c + 2 ensures ParentLe(t, j) {
      if j != 2 * i + 1 && j != 2 * i + 2 {
        assert ParentLe(s, j);
      }
    }
    forall j | 2 * c + 1 <= j <= 2 * c + 2 && j < |t| ensures KeyLe(t[(c - 1) / 2], t[j]) {
      assert ParentLe(s, j);
    }
  }

  lemma HoleFits(s: seq<Key>, i: nat, c: nat)
    requires i < |s| && LeastChild(s, i, c) && OrderedExceptBelow(s, i) && KeyLe(s[i], s[c])
    ensures HeapOrdered(s)
  {
    forall j: nat | 1 <= j < |s| ensures ParentLe(s, j) {
      if j == 2 * i + 1 || j == 2 * i + 2 {
        KeyLeTransitive(s[i], s[c], s[j]);
      }
    }
  }

  /** The mutable list handed to `heappush` and `heappop`. */
  class MinHeap {
    var items: seq<Key>

    ghost predicate Valid()
      reads this
    {
      HeapOrdered(items)
    }

    constructor ()
      ensures Valid() && items == []
    {
      items := [];
    }

    method Push(k: Key)
      requires Valid()
      modifies this
      ensures Valid() && multiset(items) == old(multiset(items)) + multiset{k}
    {
      items := items + [k];
      assert OrderedExceptAbove(items, |items| - 1) by {
        forall j: nat | 1 <= j < |items| - 1 ensures ParentLe(items, j) {
          assert ParentLe(old(items), j);
        }
      }
      var i := |items| - 1;
      while i > 0 && KeyLt(items[i], items[(i - 1) / 2])
        invariant 0 <= i < |items|
        invariant multiset(items) == old(multiset(items)) + multiset{k}
        invariant OrderedExceptAbove(items, i)
      {
        SwapUp(items, i);
        items := Swapped(items, i, (i - 1) / 2);
        i := (i - 1) / 2;
      }
      if i > 0 {
        KeyOrderTotal(items[(i - 1) / 2], items[i]);
        assert ParentLe(items, i);
      }
    }

    /** Removes and returns the least key. */
    method Pop() returns (least: Key)
      requires Valid() && items != []
      modifies this
      ensures Valid() && old(multiset(items)) == multiset(items) + multiset{least}
      ensures forall k | k in old(items) ::
                || least.start < k.start
                || (least.start == k.start && least.end < k.end)
                || (least.start == k.start && least.end == k.end && (least.id == k.id || StrLt(least.id, k.id)))
    {
      least := items[0];
      forall k | k in items ensures KeyLe(least, k) {
        var i :| 0 <= i < |items| && items[i] == k;
        RootIsLeast(items, i);
      }
      var last := items[|items| - 1];
      assert items == items[..|items| - 1] + [last];
      items := items[..|items| - 1];
      if items != [] {
        ghost var before := items;
        assert items == [least] + items[1..];
        items := [last] + items[1..];
        assert OrderedExceptBelow(items, 0) by {
          forall j: nat | 3 <= j < |items| ensures ParentLe(items, j) {
            assert ParentLe(old(items), j);
          }
        }
        SiftDown();
      }
    }

    /** Moves the root down until no child is smaller. */
    method SiftDown()
      requires items != [] && OrderedExceptBelow(items, 0)
      modifies this
      ensures Valid() && multiset(items) == old(multiset(items))
    {
      var i := 0;
      while 2 * i + 1 < |items|
        invariant 0 <= i < |items| == |old(items)|
        invariant multiset(items) == old(multiset(items))
        invariant OrderedExceptBelow(items, i)
        decreases |items| - i
      {
        var c := 2 * i + 1;
        if c + 1 < |items| && !KeyLt(items[c], items[c + 1]) {
          KeyOrderTotal(items[c + 1], items[c]);
          c := c + 1;
        }
        assert LeastChild(items, i, c);
        if !KeyLt(items[c], items[i]) {
          KeyOrderTotal(items[i], items[c]);
          HoleFits(items, i, c);
          return;
        }
        SwapDown(items, i, c);
        items := Swapped(items, i, c);
        i := c;
      }
    }
  }
}
