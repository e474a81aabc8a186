/** Grouping by a key, as a `defaultdict(list)` filled in a loop does it. */
module Grouping {
  import opened Counting

  predicate AllDistinct<T(==)>(s: seq<T>) {
    forall i, j | 0 <= i < j < |s| :: s[i] != s[j]
  }

  /** `dict.fromkeys`: each element once, in order of first occurrence. */
  function Distinct<T(==)>(s: seq<T>): (d: seq<T>)
    ensures (forall x | x in s :: x in d) && (forall x | x in d :: x in s)
    ensures forall i, j | 0 <= i < j < |d| :: d[i] != d[j]
  {
    if s == [] then []
    else
      var last := s[|s| - 1];
      var d := Distinct(s[..|s| - 1]);
      assert s == s[..|s| - 1] + [last];
      if last in d then d else d + [last]
  }

  lemma {:induction false} SameSetSameMultiset<T>(a: seq<T>, b: seq<T>)
    requires forall x :: x in a <==> x in b
    requires forall i, j | 0 <= i < j < |a| :: a[i] != a[j]
    requires forall i, j | 0 <= i < j < |b| :: b[i] != b[j]
    ensures multiset(a) == multiset(b)
  {
    forall x ensures multiset(a)[x] == multiset(b)[x] {
      OnceAtMost(a, x);
      OnceAtMost(b, x);
    }
  }

  lemma {:induction false} OnceAtMost<T>(a: seq<T>, x: T)
    requires forall i, j | 0 <= i < j < |a| :: a[i] != a[j]
    ensures multiset(a)[x] == if x in a then 1 else 0
  {
    if a != [] {
      assert a == [a[0]] + a[1..];
      OnceAtMost(a[1..], x);
      assert a[0] !in a[1..];
    }
  }

  lemma AtMostOnce<T>(s: seq<T>, i: nat, k: nat)
    requires i < k < |s|
    ensures multiset(s)[s[i]] == 1 ==> s[i] != s[k]
  {
    assert s == s[..i] + [s[i]] + s[i + 1..k] + [s[k]] + s[k + 1..];
  }

  /** The items of `s` tagged `t`, in order. */
  function Tagged<T, K(==)>(s: seq<T>, tag: T -> K, t: K): seq<T> {
    if s == [] then [] else (if tag(s[0]) == t then [s[0]] else []) + Tagged(s[1..], tag, t)
  }

  lemma TaggedCons<T, K>(x: T, s: seq<T>, tag: T -> K, t: K)
    ensures Tagged([x] + s, tag, t) == (if tag(x) == t then [x] else []) + Tagged(s, tag, t)
  {
    assert ([x] + s)[1..] == s;
  }

  lemma Associative<T>(a: seq<T>, b: seq<T>, c: seq<T>)
    ensures (a + b) + c == a + (b + c)
  {
  }

  lemma {:induction false} TaggedAppend<T, K>(a: seq<T>, b: seq<T>, tag: T -> K, t: K)
    ensures Tagged(a + b, tag, t) == Tagged(a, tag, t) + Tagged(b, tag, t)
  {
    if a == [] {
      assert a + b == b;
    } else {
      hide *;
      TaggedAppend(a[1..], b, tag, t);
      TaggedCons(a[0], a[1..], tag, t);
      TaggedCons(a[0], a[1..] + b, tag, t);
      Associative(if tag(a[0]) == t then [a[0]] else [], Tagged(a[1..], tag, t), Tagged(b, tag, t));
      Associative([a[0]], a[1..], b);
      assert a == [a[0]] + a[1..];
    }
  }

  /** The tagged items are the filtered ones. */
  lemma {:induction false} TaggedIsFilter<T(!new), K>(s: seq<T>, tag: T -> K, t: K)
    ensures Tagged(s, tag, t) == Filter(s, x => tag(x) == t)
  {
    if s != [] {
      TaggedIsFilter(s[1..], tag, t);
    }
  }

  /** `Distinct` lists elements by first occurrence: one listed later never occurs before the first of one listed
      earlier. */
  lemma {:induction false} DistinctByFirstUse<T>(s: seq<T>, i: nat, j: nat, y: nat)
    requires i < j < |Distinct(s)| && y < |s| && s[y] == Distinct(s)[j]
    ensures exists x | 0 <= x < y :: s[x] == Distinct(s)[i]
  {
    var n := |s| - 1;
    var front, d := s[..n], Distinct(s[..n]);
    if y < n {
      assert front[y] in d;
      if j < |d| {
        DistinctByFirstUse(front, i, j, y);
        var x :| 0 <= x < y && front[x] == d[i];
        assert s[x] == Distinct(s)[i];
      }
    } else {
      assert Distinct(s)[i] == d[i] && d[i] in d && d[i] in front;
      var x :| 0 <= x < |front| && front[x] == d[i];
      assert s[x] == Distinct(s)[i];
    }
  }

  // ----- Filling the groups -----

  function Keys<T>(items: seq<T>, key: T -> string): (keys: seq<string>)
    ensures |keys| == |items|
  {
    seq(|items|, i requires 0 <= i < |items| => key(items[i]))
  }

  lemma KeyAt<T>(items: seq<T>, key: T -> string, i: nat)
    requires i < |items|
    ensures Keys(items, key)[i] == key(items[i]) && key(items[i]) in Keys(items, key)
  {
    assert Keys(items, key)[i] == key(items[i]);
  }

  function Groups<T>(items: seq<T>, key: T -> string): map<string, seq<T>> {
    map k | k in Distinct(Keys(items, key)) :: Tagged(items, key, k)
  }

  /** Files each item under its key, keys in order of first use. */
  method FillGroups<T>(items: seq<T>, key: T -> string) returns (groups: map<string, seq<T>>, keys: seq<string>)
    ensures keys == Distinct(Keys(items, key)) && groups == Groups(items, key)
  {
    hide *;
    groups, keys := map[], [];
    NothingFiled(items, key);
    for i := 0 to |items|
      invariant Filed(items, i, key, groups, keys)
    {
      var k := key(items[i]);
      FileNext(items, i, key, groups, keys);
      if k in groups {
        groups := groups[k := groups[k] + [items[i]]];
      } else {
        groups, keys := groups[k := [items[i]]], keys + [k];
      }
    }
    AllFiled(items, key, groups, keys);
  }

  ghost predicate Filed<T>(items: seq<T>, i: nat, key: T -> string, groups: map<string, seq<T>>, keys: seq<string>) {
    i <= |items| && keys == Distinct(Keys(items[..i], key)) && groups == Groups(items[..i], key)
  }

  lemma NothingFiled<T>(items: seq<T>, key: T -> string)
    ensures Filed(items, 0, key, map[], [])
  {
  }

  lemma AllFiled<T>(items: seq<T>, key: T -> string, groups: map<string, seq<T>>, keys: seq<string>)
    requires Filed(items, |items|, key, groups, keys)
    ensures keys == Distinct(Keys(items, key)) && groups == Groups(items, key)
  {
    assert items[..|items|] == items;
  }

  lemma FileNext<T>(items: seq<T>, i: nat, key: T -> string, groups: map<string, seq<T>>, keys: seq<string>)
    requires i < |items| && Filed(items, i, key, groups, keys)
    ensures var k := key(items[i]);
            if k in groups then
              Filed(items, i + 1, key, groups[k := groups[k] + [items[i]]], keys)
            else
              Filed(items, i + 1, key, groups[k := [items[i]]], keys + [k])
  {
    hide Groups, Keys, Distinct;
    assert items[..i + 1] == items[..i] + [items[i]];
    FileOne(items[..i], items[i], key);
  }

  lemma FileOne<T>(before: seq<T>, item: T, key: T -> string)
    ensures var k := key(item);
            if k in Groups(before, key) then
              && Groups(before + [item], key) == Groups(before, key)[k := Groups(before, key)[k] + [item]]
              && Distinct(Keys(before + [item], key)) == Distinct(Keys(before, key))
            else
              && Groups(before + [item], key) == Groups(before, key)[k := [item]]
              && Distinct(Keys(before + [item], key)) == Distinct(Keys(before, key)) + [k]
  {
    hide *;
    KeysGrow(before, item, key);
    GroupMembers(before, key);
    GroupsGrow(before, item, key);
    if key(item) in Groups(before, key) {
      FileInGroup(before, item, key);
    } else {
      FileInNewGroup(before, item, key);
    }
  }

  /** Filing one more item adds its key, and the item to its own group only. */
  lemma GroupsGrow<T>(before: seq<T>, item: T, key: T -> string)
    ensures Groups(before + [item], key).Keys == Groups(before, key).Keys + {key(item)}
    ensures forall k | k in Groups(before + [item], key) ::
              Groups(before + [item], key)[k] == Tagged(before, key, k) + if key(item) == k then [item] else []
  {
    hide *;
    KeysGrow(before, item, key);
    GroupMembers(before, key);
    GroupMembers(before + [item], key);
    forall k | k in Groups(before + [item], key)
      ensures Groups(before + [item], key)[k] == Tagged(before, key, k) + if key(item) == k then [item] else []
    {
      TaggedSnoc(before, item, key, k);
    }
  }

  lemma FileInGroup<T>(before: seq<T>, item: T, key: T -> string)
    requires key(item) in Groups(before, key)
    ensures Groups(before + [item], key)
            == Groups(before, key)[key(item) := Groups(before, key)[key(item)] + [item]]
  {
    hide *;
    GroupMembers(before, key);
    GroupsGrow(before, item, key);
    var grown := Groups(before + [item], key);
    var filed := Groups(before, key)[key(item) := Groups(before, key)[key(item)] + [item]];
    assert grown.Keys == filed.Keys;
    assert forall k | k in grown :: grown[k] == filed[k];
    assert grown == filed;
  }

  lemma FileInNewGroup<T>(before: seq<T>, item: T, key: T -> string)
    requires key(item) !in Groups(before, key)
    ensures Groups(before + [item], key) == Groups(before, key)[key(item) := [item]]
  {
    hide *;
    GroupMembers(before, key);
    GroupsGrow(before, item, key);
    NoneTagged(before, key, key(item));
    assert [] + [item] == [item];
    var grown, filed := Groups(before + [item], key), Groups(before, key)[key(item) := [item]];
    assert grown.Keys == filed.Keys;
    assert forall k | k in grown :: grown[k] == filed[k];
    assert grown == filed;
  }

  lemma GroupMembers<T>(items: seq<T>, key: T -> string)
    ensures Groups(items, key).Keys == set k | k in Keys(items, key)
    ensures forall k | k in Groups(items, key) :: Groups(items, key)[k] == Tagged(items, key, k)
  {
  }

  lemma TaggedSnoc<T, K>(before: seq<T>, item: T, key: T -> K, k: K)
    ensures Tagged(before + [item], key, k) == Tagged(before, key, k) + if key(item) == k then [item] else []
  {
    TaggedAppend(before, [item], key, k);
  }

  lemma KeysGrow<T>(before: seq<T>, item: T, key: T -> string)
    ensures Keys(before + [item], key) == Keys(before, key) + [key(item)]
    ensures Distinct(Keys(before + [item], key))
            == Distinct(Keys(before, key)) + if key(item) in Keys(before, key) then [] else [key(item)]
  {
    var all := Keys(before + [item], key);
    assert all == Keys(before, key) + [key(item)];
    assert all[..|all| - 1] == Keys(before, key);
  }

  lemma {:induction false} NoneTagged<T>(items: seq<T>, key: T -> string, k: string)
    requires k !in Keys(items, key)
    ensures Tagged(items, key, k) == []
  {
    if items != [] {
      assert Keys(items, key)[0] == key(items[0]);
      assert Keys(items, key)[1..] == Keys(items[1..], key);
      NoneTagged(items[1..], key, k);
    }
  }

  lemma {:induction false} TaggedMember<T, K>(items: seq<T>, key: T -> K, k: K, i: nat)
    requires i < |Tagged(items, key, k)|
    ensures key(Tagged(items, key, k)[i]) == k && Tagged(items, key, k)[i] in items
  {
    if key(items[0]) != k {
      TaggedMember(items[1..], key, k, i);
    } else if i > 0 {
      TaggedMember(items[1..], key, k, i - 1);
    }
  }

  lemma {:induction false} TaggedHolds<T, K>(items: seq<T>, key: T -> K, i: nat)
    requires i < |items|
    ensures items[i] in Tagged(items, key, key(items[i]))
  {
    if i > 0 {
      TaggedHolds(items[1..], key, i - 1);
    }
  }

  /** An arrangement of distinct elements repeats none. */
  lemma DistinctShuffled<T>(distinct: seq<T>, shuffled: seq<T>)
    requires multiset(distinct) == multiset(shuffled)
    requires forall i, j | 0 <= i < j < |distinct| :: distinct[i] != distinct[j]
    ensures forall i, j | 0 <= i < j < |shuffled| :: shuffled[i] != shuffled[j]
  {
    forall i, j | 0 <= i < j < |shuffled| ensures shuffled[i] != shuffled[j] {
      OnceAtMost(distinct, shuffled[i]);
      AtMostOnce(shuffled, i, j);
    }
  }
}
