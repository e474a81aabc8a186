/** The orders Python sorts by: code-point order on strings, and stable sorting by a key order. */
module Ordering {

  /** Python's `<` on strings: lexicographic by code point. */
  predicate StrLt(a: string, b: string) {
    b != [] && (a == [] || a[0] < b[0] || (a[0] == b[0] && StrLt(a[1..], b[1..])))
  }

  lemma {:induction false} StrLtTrichotomy(a: string, b: string)
    ensures a == b ==> !StrLt(a, b) && !StrLt(b, a)
    ensures a != b ==> StrLt(a, b) != StrLt(b, a)
  {
    if a != [] && b != [] {
      StrLtTrichotomy(a[1..], b[1..]);
      if a[0] == b[0] && a[1..] == b[1..] {
        assert a == [a[0]] + a[1..] == b;
      }
    }
  }

  lemma {:induction false} StrLtTransitive(a: string, b: string, c: string)
    requires StrLt(a, b) && StrLt(b, c)
    ensures StrLt(a, c)
  {
    if a != [] && a[0] == b[0] == c[0] {
      StrLtTransitive(a[1..], b[1..], c[1..]);
    }
  }

  /** A total preorder, as a key function induces one. */
  ghost predicate TotalPreorder<T(!new)>(le: (T, T) -> bool) {
    && (forall x, y :: le(x, y) || le(y, x))
    && (forall x, y, z :: le(x, y) && le(y, z) ==> le(x, z))
  }

  ghost predicate Sorted<T>(s: seq<T>, le: (T, T) -> bool) {
    forall i, j | 0 <= i < j < |s| :: le(s[i], s[j])
  }

  /** Inserts `x` before the first element that is strictly greater: a stable insertion. */
  function Insert<T>(x: T, s: seq<T>, le: (T, T) -> bool): (r: seq<T>)
    ensures multiset(r) == multiset(s) + multiset{x} && |r| == |s| + 1
  {
    if s == [] then
      [x]
    else if le(x, s[0]) then
      assert [x] + s == [x] + s;
      [x] + s
    else
      assert s == [s[0]] + s[1..];
      [s[0]] + Insert(x, s[1..], le)
  }

  /** Python's stable `sorted` under a key order. */
  function SortBy<T>(s: seq<T>, le: (T, T) -> bool): (r: seq<T>)
    ensures multiset(r) == multiset(s)
    ensures |r| == |s|
  {
    if s == [] then
      []
    else
      var r := Insert(s[0], SortBy(s[1..], le), le);
      HeadAndTail(s);
      r
  }

  lemma HeadAndTail<T>(s: seq<T>)
    requires s != []
    ensures multiset(s) == multiset(s[1..]) + multiset{s[0]}
  {
    assert s == [s[0]] + s[1..];
  }

  lemma {:induction false} InsertSorted<T(!new)>(x: T, s: seq<T>, le: (T, T) -> bool)
    requires TotalPreorder(le) && Sorted(s, le)
    ensures Sorted(Insert(x, s, le), le)
  {
    if s != [] && !le(x, s[0]) {
      InsertSorted(x, s[1..], le);
      var r := Insert(x, s[1..], le);
      forall j | 0 <= j < |r| ensures le(s[0], r[j]) {
        assert r[j] in multiset(r);
        assert r[j] == x || r[j] in s[1..];
      }
    }
  }

  lemma {:induction false} SortBySorted<T(!new)>(s: seq<T>, le: (T, T) -> bool)
    requires TotalPreorder(le)
    ensures Sorted(SortBy(s, le), le)
  {
    if s != [] {
      SortBySorted(s[1..], le);
      InsertSorted(s[0], SortBy(s[1..], le), le);
    }
  }

  /** Under an antisymmetric order, a multiset has only one sorted arrangement. */
  lemma {:induction false} SortedUnique<T(!new)>(a: seq<T>, b: seq<T>, le: (T, T) -> bool)
    requires TotalPreorder(le)
    requires forall x, y :: x in a && y in a && le(x, y) && le(y, x) ==> x == y
    requires Sorted(a, le) && Sorted(b, le) && multiset(a) == multiset(b)
    ensures a == b
  {
    PermutationFacts(a, b);
    if a != [] {
      SameHead(a, b, le);
      TailsPermute(a, b);
      assert forall x | x in a[1..] :: x in a;
      hide TotalPreorder;
      SortedUnique(a[1..], b[1..], le);
      assert a == [a[0]] + a[1..] && b == [b[0]] + b[1..];
    }
  }

  lemma SameHead<T(!new)>(a: seq<T>, b: seq<T>, le: (T, T) -> bool)
    requires TotalPreorder(le) && a != [] && b != [] && a[0] in b && b[0] in a
    requires forall x, y :: x in a && y in a && le(x, y) && le(y, x) ==> x == y
    requires Sorted(a, le) && Sorted(b, le)
    ensures a[0] == b[0]
  {
    assert le(a[0], b[0]) && le(b[0], a[0]);
  }

  lemma TailsPermute<T>(a: seq<T>, b: seq<T>)
    requires a != [] && b != [] && a[0] == b[0] && multiset(a) == multiset(b)
    ensures multiset(a[1..]) == multiset(b[1..])
  {
    assert a == [a[0]] + a[1..] && b == [b[0]] + b[1..];
    assert multiset(a[1..]) == multiset(a) - multiset{a[0]};
    assert multiset(b[1..]) == multiset(b) - multiset{a[0]};
  }

  /** Equal multisets have equal members and lengths. */
  lemma PermutationFacts<T>(a: seq<T>, b: seq<T>)
    requires multiset(a) == multiset(b)
    ensures |a| == |b|
    ensures forall x :: x in a <==> x in b
  {
    assert |multiset(a)| == |multiset(b)|;
    assert forall x :: x in a <==> x in multiset(a);
    assert forall x :: x in b <==> x in multiset(b);
  }

  // ----- Strings -----

  predicate StrLe(a: string, b: string) {
    !StrLt(b, a)
  }

  lemma StrLeTotal()
    ensures TotalPreorder(StrLe)
    ensures forall a, b :: StrLe(a, b) && StrLe(b, a) ==> a == b
  {
    forall a, b ensures StrLe(a, b) || StrLe(b, a)
      ensures StrLe(a, b) && StrLe(b, a) ==> a == b
    {
      StrLtTrichotomy(a, b);
    }
    forall a, b, c ensures StrLe(a, b) && StrLe(b, c) ==> StrLe(a, c) {
      StrLtTrichotomy(a, b);
      StrLtTrichotomy(b, c);
      StrLtTrichotomy(a, c);
      if StrLt(a, b) && StrLt(b, c) {
        StrLtTransitive(a, b, c);
      }
    }
  }

  /** Sorting forgets the order of a list of strings. */
  lemma SameSort(a: seq<string>, b: seq<string>)
    requires multiset(a) == multiset(b)
    ensures SortBy(a, StrLe) == SortBy(b, StrLe)
  {
    hide *;
    StrLeTotal();
    SortBySorted(a, StrLe);
    SortBySorted(b, StrLe);
    SortedUnique(SortBy(a, StrLe), SortBy(b, StrLe), StrLe);
  }

  /** `"|".join(parts)`. */
  function Join(parts: seq<string>): string {
    if parts == [] then "" else if |parts| == 1 then parts[0] else parts[0] + "|" + Join(parts[1..])
  }

  /** `a` comes before `b` when it is a proper prefix of `b`, or smaller at the first difference. */
  lemma {:induction false} StrLtIs(a: string, b: string)
    ensures StrLt(a, b) <==>
              || a < b
              || exists k | 0 <= k < |a| && k < |b| :: a[..k] == b[..k] && a[k] < b[k]
  {
    if a == [] {
      assert a <= b;
    } else if b != [] {
      if a[0] == b[0] {
        StrLtIs(a[1..], b[1..]);
        PrefixTails(a, b);
        if k :| 0 <= k < |a[1..]| && k < |b[1..]| && a[1..][..k] == b[1..][..k] && a[1..][k] < b[1..][k] {
          DifferenceBack(a, b, k);
        }
        if k :| 0 <= k < |a| && k < |b| && a[..k] == b[..k] && a[k] < b[k] {
          DifferenceInTails(a, b, k);
        }
      } else {
        HeadsDiffer(a, b);
      }
    }
  }

  lemma PrefixTails(a: string, b: string)
    requires a != [] && b != [] && a[0] == b[0]
    ensures a < b <==> a[1..] < b[1..]
  {
    assert a == [a[0]] + a[1..] && b == [b[0]] + b[1..];
    if a[1..] < b[1..] {
      assert b[1..][..|a[1..]|] == a[1..];
      assert b[..|a|] == a;
    }
    if a < b {
      assert b[..|a|] == a;
      assert b[1..][..|a[1..]|] == a[1..];
    }
  }

  lemma DifferenceBack(a: string, b: string, k: nat)
    requires a != [] && b != [] && a[0] == b[0] && k < |a[1..]| && k < |b[1..]|
    requires a[1..][..k] == b[1..][..k] && a[1..][k] < b[1..][k]
    ensures a[..k + 1] == b[..k + 1] && a[k + 1] < b[k + 1]
  {
    assert a[..k + 1] == [a[0]] + a[1..][..k] && b[..k + 1] == [b[0]] + b[1..][..k];
  }

  lemma DifferenceInTails(a: string, b: string, k: nat)
    requires a != [] && b != [] && a[0] == b[0] && k < |a| && k < |b| && a[..k] == b[..k] && a[k] < b[k]
    ensures k > 0 && a[1..][..k - 1] == b[1..][..k - 1] && a[1..][k - 1] < b[1..][k - 1]
  {
    assert k > 0;
    assert a[1..][..k - 1] == a[..k][1..] && b[1..][..k - 1] == b[..k][1..];
  }

  lemma HeadsDiffer(a: string, b: string)
    requires a != [] && b != [] && a[0] != b[0]
    ensures !(a < b) && (a[0] < b[0] ==> a[..0] == b[..0])
    ensures forall k | 0 < k < |a| && k < |b| :: a[..k] != b[..k]
  {
    forall k | 0 < k < |a| && k < |b| ensures a[..k] != b[..k] {
      assert a[..k][0] == a[0] && b[..k][0] == b[0];
    }
  }

  ghost predicate NoBars(parts: seq<string>) {
    forall p | p in parts :: '|' !in p
  }

  /** Parts without bars can be read off the joined text. */
  lemma {:induction false} JoinInjective(a: seq<string>, b: seq<string>)
    requires a != [] && b != [] && NoBars(a) && NoBars(b) && Join(a) == Join(b)
    ensures a == b
  {
    assert a[0] in a && b[0] in b;
    if |a| == 1 && |b| == 1 {
      assert a == [a[0]] && b == [b[0]];
    } else if |a| > 1 && |b| > 1 {
      SameFirstPart(a[0], Join(a[1..]), b[0], Join(b[1..]));
      assert NoBars(a[1..]) && NoBars(b[1..]);
      JoinInjective(a[1..], b[1..]);
      assert a == [a[0]] + a[1..] && b == [b[0]] + b[1..];
    }
  }

  lemma SameFirstPart(p: string, rest: string, q: string, other: string)
    requires '|' !in p && '|' !in q && p + "|" + rest == q + "|" + other
    ensures p == q && rest == other
  {
    var t := p + "|" + rest;
    assert t[|p|] == '|' && t[|q|] == '|' && t[..|p|] == p && t[..|q|] == q;
    assert t[|p| + 1..] == rest && t[|q| + 1..] == other;
  }
}
