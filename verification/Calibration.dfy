/** Judge calibration: Cohen's kappa and the confusion matrix, in exact arithmetic. */
module Calibration {
  import opened Prelude
  import opened Rounding
  import opened RealArithmetic

  datatype Verdict = PASS | REVIEW | FAIL

  /** `Counter(labels)[v]`. */
  function Tally(labels: seq<Verdict>, v: Verdict): nat {
    if labels == [] then 0 else (if labels[0] == v then 1 else 0) + Tally(labels[1..], v)
  }

  /** Positions where both lists hold the given labels: one cell of the confusion matrix. */
  function Cell(left: seq<Verdict>, right: seq<Verdict>, a: Verdict, b: Verdict): nat
    requires |left| == |right|
  {
    if left == [] then 0
    else (if left[0] == a && right[0] == b then 1 else 0) + Cell(left[1..], right[1..], a, b)
  }

  function Agreements(left: seq<Verdict>, right: seq<Verdict>): nat
    requires |left| == |right|
  {
    if left == [] then 0 else (if left[0] == right[0] then 1 else 0) + Agreements(left[1..], right[1..])
  }

  /** Sum over the verdicts of the product of the two tallies: n^2 times the expected agreement. */
  function Chance(left: seq<Verdict>, right: seq<Verdict>): nat {
    Tally(left, PASS) * Tally(right, PASS) + Tally(left, REVIEW) * Tally(right, REVIEW)
    + Tally(left, FAIL) * Tally(right, FAIL)
  }

  /** The code's `observed`. */
  function Observed(left: seq<Verdict>, right: seq<Verdict>): real
    requires |left| == |right| && left != []
  {
    Agreements(left, right) as real / |left| as real
  }

  function Share(labels: seq<Verdict>, v: Verdict): real
    requires labels != []
  {
    Tally(labels, v) as real / |labels| as real
  }

  /** The chance that both raters give verdict `v`. */
  function BothSay(left: seq<Verdict>, right: seq<Verdict>, v: Verdict): real
    requires left != [] && right != []
  {
    Share(left, v) * Share(right, v)
  }

  /** The code's `expected`. */
  function Expected(left: seq<Verdict>, right: seq<Verdict>): real
    requires left != [] && right != []
  {
    BothSay(left, right, PASS) + BothSay(left, right, REVIEW) + BothSay(left, right, FAIL)
  }

  datatype KappaError = DifferentLengths

  /** Kappa before rounding. */
  function RawKappa(left: seq<Verdict>, right: seq<Verdict>): real
    requires |left| == |right|
  {
    if left == [] then 0.0
    else if Expected(left, right) == 1.0 then
      if Observed(left, right) == 1.0 then 1.0 else 0.0
    else
      (Observed(left, right) - Expected(left, right)) / (1.0 - Expected(left, right))
  }

  function CohenKappa(left: seq<Verdict>, right: seq<Verdict>): Result<real, KappaError> {
    if |left| != |right| then Err(DifferentLengths) else Ok(Round4(RawKappa(left, right)))
  }

  // ----- Counting facts -----

  lemma {:induction false} TalliesSum(labels: seq<Verdict>)
    ensures Tally(labels, PASS) + Tally(labels, REVIEW) + Tally(labels, FAIL) == |labels|
  {
    if labels != [] {
      TalliesSum(labels[1..]);
    }
  }

  /** Two labels that together exceed the length must meet. */
  lemma {:induction false} AgreementsAtLeast(left: seq<Verdict>, right: seq<Verdict>, v: Verdict)
    requires |left| == |right|
    ensures Tally(left, v) + Tally(right, v) <= |left| + Agreements(left, right)
    ensures Agreements(left, right) <= |left|
  {
    if left != [] {
      AgreementsAtLeast(left[1..], right[1..], v);
    }
  }

  lemma {:induction false} AllAgree(left: seq<Verdict>, right: seq<Verdict>)
    requires |left| == |right|
    ensures Agreements(left, right) <= |left|
    ensures Agreements(left, right) == |left| <==> left == right
  {
    if left != [] {
      AllAgree(left[1..], right[1..]);
      assert left == [left[0]] + left[1..] && right == [right[0]] + right[1..];
    }
  }

  lemma {:induction false} AgreementsSymmetric(left: seq<Verdict>, right: seq<Verdict>)
    requires |left| == |right|
    ensures Agreements(left, right) == Agreements(right, left)
  {
    if left != [] {
      AgreementsSymmetric(left[1..], right[1..]);
    }
  }

  // ----- The inequality behind the lower bound -----

  /** A product under a name of its own, so that the steps below are linear in products. */
  ghost function Times(a: int, b: int): int {
    a * b
  }

  lemma TimesIs(a: int, b: int)
    ensures Times(a, b) == a * b
  {
  }

  lemma TimesCommutes(a: int, b: int)
    ensures Times(a, b) == Times(b, a)
  {
  }

  lemma TimesSum(n: int, a: int, b: int)
    ensures Times(n, a + b) == Times(n, a) + Times(n, b)
  {
  }

  lemma TimesMono(a: nat, b: nat, c: nat)
    requires a <= b
    ensures Times(a, c) <= Times(b, c) && Times(c, a) <= Times(c, b)
  {
  }

  lemma TimesNonNegative(a: nat, b: nat)
    ensures Times(a, b) >= 0
  {
  }

  lemma TimesNegated(a: int, b: int)
    ensures Times(-a, b) == -Times(a, b) && Times(a, -b) == -Times(a, b)
  {
  }

  lemma TimesSquare(a: int)
    ensures Times(a, a) >= 0
  {
    hide Times;
    TimesNegated(a, a);
    TimesNegated(a, -a);
    if a >= 0 {
      TimesNonNegative(a, a);
    } else {
      TimesNonNegative(-a, -a);
    }
  }

  lemma TimesThree(n: int, a: int, b: int, c: int)
    ensures Times(n, a + b + c) == Times(n, a) + Times(n, b) + Times(n, c)
  {
    hide Times;
    TimesSum(n, a + b, c);
    TimesSum(n, a, b);
  }

  lemma TimesSums(a: int, b: int, x: int, y: int)
    ensures Times(a + b, x + y) == Times(a, x) + Times(a, y) + Times(b, x) + Times(b, y)
  {
    hide Times;
    TimesSum(a + b, x, y);
    TimesCommutes(a + b, x);
    TimesCommutes(a + b, y);
    TimesSum(x, a, b);
    TimesSum(y, a, b);
    TimesCommutes(x, a);
    TimesCommutes(x, b);
    TimesCommutes(y, a);
    TimesCommutes(y, b);
  }

  /** Chance agreement as a sum of named products. */
  lemma ChanceTimes(left: seq<Verdict>, right: seq<Verdict>)
    ensures Chance(left, right) == Times(Tally(left, PASS), Tally(right, PASS))
              + Times(Tally(left, REVIEW), Tally(right, REVIEW)) + Times(Tally(left, FAIL), Tally(right, FAIL))
  {
    hide Tally;
  }

  /** With all shares of the three labels summing to n on both sides, chance agreement never
      exceeds (n^2 + n * agreements) / 2. */
  lemma ChanceBound(left: seq<Verdict>, right: seq<Verdict>)
    requires |left| == |right|
    ensures 2 * Chance(left, right) <= Times(|left|, |left|) + Times(|left|, Agreements(left, right))
  {
    hide *;
    var n := |left|;
    TalliesSum(left);
    TalliesSum(right);
    AgreementsAtLeast(left, right, PASS);
    AgreementsAtLeast(left, right, REVIEW);
    AgreementsAtLeast(left, right, FAIL);
    ChanceTimes(left, right);
    SharesBound(n, Tally(left, PASS), Tally(left, REVIEW), Tally(left, FAIL),
                Tally(right, PASS), Tally(right, REVIEW), Tally(right, FAIL), Agreements(left, right));
  }

  lemma SharesBound(n: nat, a: nat, b: nat, c: nat, x: nat, y: nat, z: nat, agree: nat)
    requires a + b + c == n && x + y + z == n
    requires a + x <= n + agree && b + y <= n + agree && c + z <= n + agree
    ensures 2 * (Times(a, x) + Times(b, y) + Times(c, z)) <= Times(n, n) + Times(n, agree)
  {
    hide *;
    if a + x >= n {
      OneLargeLabel(n, a, b, c, x, y, z, agree);
    } else if b + y >= n {
      OneLargeLabel(n, b, a, c, y, x, z, agree);
    } else if c + z >= n {
      OneLargeLabel(n, c, a, b, z, x, y, agree);
    } else {
      NoLargeLabel(n, a, b, c, x, y, z);
      TimesNonNegative(n, agree);
    }
  }

  /** Chance agreement is at most certain. */
  lemma ChanceAtMostOne(left: seq<Verdict>, right: seq<Verdict>)
    requires |left| == |right|
    ensures Chance(left, right) <= Times(|left|, |left|)
  {
    hide *;
    var n := |left|;
    TalliesSum(left);
    TalliesSum(right);
    ChanceTimes(left, right);
    TimesMono(Tally(right, PASS), n, Tally(left, PASS));
    TimesMono(Tally(right, REVIEW), n, Tally(left, REVIEW));
    TimesMono(Tally(right, FAIL), n, Tally(left, FAIL));
    TimesCommutes(Tally(left, PASS), n);
    TimesCommutes(Tally(left, REVIEW), n);
    TimesCommutes(Tally(left, FAIL), n);
    TimesThree(n, Tally(left, PASS), Tally(left, REVIEW), Tally(left, FAIL));
  }

  lemma OthersBelow(b: nat, c: nat, y: nat, z: nat)
    ensures Times(b, y) + Times(c, z) <= Times(b + c, y + z)
  {
    hide *;
    TimesSums(b, c, y, z);
    TimesNonNegative(b, z);
    TimesNonNegative(c, y);
  }

  lemma ExpandDifference(n: int, p: int, q: int)
    ensures Times(n - p, n - q) == Times(n, n) - Times(n, p) - Times(n, q) + Times(p, q)
  {
    hide *;
    TimesSums(n, -p, n, -q);
    TimesNegated(n, q);
    TimesNegated(p, n);
    TimesNegated(p, -q);
    TimesNegated(p, q);
    TimesCommutes(p, n);
  }

  lemma OneLargeLabel(n: nat, a: nat, b: nat, c: nat, x: nat, y: nat, z: nat, agree: nat)
    requires a + b + c == n && x + y + z == n && a + x >= n && a + x <= n + agree
    ensures 2 * (Times(a, x) + Times(b, y) + Times(c, z)) <= Times(n, n) + Times(n, agree)
  {
    hide *;
    var p, q, d := b + c, y + z, a + x - n;
    OthersBelow(b, c, y, z);
    ExpandDifference(n, p, q);
    assert a == n - p && x == n - q;
    PairBound(n, p, q);
    TimesMono(d, agree, n);
    TimesThree(n, d, p, q);
    assert d + p + q == n;
  }

  lemma FourTimesProduct(p: int, q: int)
    ensures 4 * Times(p, q) == Times(p + q, p + q) - Times(p - q, p - q)
  {
    hide *;
    TimesSums(p, q, p, q);
    TimesSums(p, -q, p, -q);
    TimesNegated(p, q);
    TimesNegated(q, p);
    TimesNegated(q, -q);
    TimesNegated(q, q);
    TimesCommutes(p, q);
  }

  /** For p + q <= n, 4pq <= n(p + q). */
  lemma PairBound(n: nat, p: nat, q: nat)
    requires p + q <= n
    ensures 4 * Times(p, q) <= Times(n, p) + Times(n, q)
  {
    hide *;
    FourTimesProduct(p, q);
    TimesSquare(p - q);
    TimesMono(p + q, n, p + q);
    TimesSum(n, p, q);
  }

  lemma NoLargeLabel(n: nat, a: nat, b: nat, c: nat, x: nat, y: nat, z: nat)
    requires a + b + c == n && x + y + z == n && a + x <= n && b + y <= n && c + z <= n
    ensures 2 * (Times(a, x) + Times(b, y) + Times(c, z)) <= Times(n, n)
  {
    hide *;
    PairBound(n, a, x);
    PairBound(n, b, y);
    PairBound(n, c, z);
    TimesThree(n, a, b, c);
    TimesThree(n, x, y, z);
  }

  // ----- From counts to kappa -----

  /** A rate scaled by a square, under a name of its own. */
  ghost function Scale(x: real, s: real): real {
    x * s
  }

  lemma ScaleSign(x: real, s: real)
    requires s > 0.0
    ensures x >= 0.0 <==> Scale(x, s) >= 0.0
    ensures x == 0.0 <==> Scale(x, s) == 0.0
  {
    if x > 0.0 {
      MulPositive(x, s);
    } else if x < 0.0 {
      MulPositive(-x, s);
      assert -x * s == -(x * s);
    }
  }

  lemma ScaleSum(x: real, y: real, s: real)
    ensures Scale(x + y, s) == Scale(x, s) + Scale(y, s)
  {
  }

  lemma ScaleOne(s: real)
    ensures Scale(1.0, s) == s
  {
  }

  lemma ScaleNegated(x: real, s: real)
    ensures Scale(-x, s) == -Scale(x, s)
  {
  }

  lemma ScaleComplement(x: real, s: real)
    ensures Scale(1.0 - x, s) == s - Scale(x, s)
  {
    hide *;
    ScaleSum(1.0, -x, s);
    ScaleOne(s);
    ScaleNegated(x, s);
  }

  lemma ShareProduct(p: real, q: real, n: nat, a: nat, x: nat)
    requires Scale(p, n as real) == a as real && Scale(q, n as real) == x as real
    ensures Scale(Scale(p, q), Times(n, n) as real) == Times(a, x) as real
  {
    hide *;
    CastProduct(n, n);
    CastProduct(a, x);
    Regroup(p, q, n as real);
  }

  lemma Regroup(p: real, q: real, r: real)
    ensures Scale(Scale(p, q), Scale(r, r)) == Scale(Scale(p, r), Scale(q, r))
  {
  }

  lemma CastProduct(a: nat, b: nat)
    ensures Times(a, b) as real == Scale(a as real, b as real)
  {
  }

  lemma BothSayScaled(left: seq<Verdict>, right: seq<Verdict>, v: Verdict)
    requires |left| == |right| && left != []
    ensures Scale(BothSay(left, right, v), Times(|left|, |left|) as real) == Times(Tally(left, v), Tally(right, v)) as real
  {
    hide *;
    ShareScaled(left, v);
    ShareScaled(right, v);
    BothSayIsProduct(left, right, v);
    ShareProduct(Share(left, v), Share(right, v), |left|, Tally(left, v), Tally(right, v));
  }

  lemma ShareScaled(labels: seq<Verdict>, v: Verdict)
    requires labels != []
    ensures Scale(Share(labels, v), |labels| as real) == Tally(labels, v) as real
  {
    hide Tally;
    DivTimes(Tally(labels, v) as real, |labels| as real);
  }

  lemma BothSayIsProduct(left: seq<Verdict>, right: seq<Verdict>, v: Verdict)
    requires left != [] && right != []
    ensures BothSay(left, right, v) == Scale(Share(left, v), Share(right, v))
  {
    hide Share;
  }

  lemma ExpectedIsChance(left: seq<Verdict>, right: seq<Verdict>)
    requires |left| == |right| && left != []
    ensures Scale(Expected(left, right), Times(|left|, |left|) as real) == Chance(left, right) as real
  {
    assert Expected(left, right) == BothSay(left, right, PASS) + BothSay(left, right, REVIEW) + BothSay(left, right, FAIL);
    hide *;
    var s := Times(|left|, |left|) as real;
    var first, second := BothSay(left, right, PASS), BothSay(left, right, REVIEW);
    BothSayScaled(left, right, PASS);
    BothSayScaled(left, right, REVIEW);
    BothSayScaled(left, right, FAIL);
    ChanceTimes(left, right);
    ScaleSum(first + second, BothSay(left, right, FAIL), s);
    ScaleSum(first, second, s);
    CastSum(Times(Tally(left, PASS), Tally(right, PASS)), Times(Tally(left, REVIEW), Tally(right, REVIEW)),
            Times(Tally(left, FAIL), Tally(right, FAIL)));
  }

  lemma CastSum(a: int, b: int, c: int)
    ensures (a + b + c) as real == a as real + b as real + c as real
  {
  }

  lemma ObservedIsAgreements(left: seq<Verdict>, right: seq<Verdict>)
    requires |left| == |right| && left != []
    ensures Scale(Observed(left, right), Times(|left|, |left|) as real) == Times(|left|, Agreements(left, right)) as real
  {
    var r, agree := |left| as real, Agreements(left, right);
    assert Scale(Observed(left, right), r) == agree as real by {
      hide Agreements;
      DivTimes(agree as real, r);
    }
    hide *;
    CastProduct(|left|, |left|);
    CastProduct(|left|, agree);
    RegroupOnce(Observed(left, right), r);
  }

  lemma RegroupOnce(o: real, r: real)
    ensures Scale(o, Scale(r, r)) == Scale(r, Scale(o, r))
  {
  }

  lemma SquareOfLength(n: nat)
    requires n > 0
    ensures Times(n, n) > 0
  {
    hide Times;
    TimesMono(1, n, n);
    TimesIs(1, n);
  }

  lemma FullAgreement(n: nat, agree: nat)
    requires agree <= n && n > 0
    ensures Times(n, agree) <= Times(n, n)
    ensures Times(n, agree) == Times(n, n) <==> agree == n
  {
    hide Times;
    TimesSum(n, agree, n - agree);
    TimesMono(1, n, n - agree);
    TimesIs(1, n - agree);
  }

  /** Both rates are at most 1, and observed agreement is total exactly when the lists agree. */
  lemma RatesAtMostOne(left: seq<Verdict>, right: seq<Verdict>)
    requires |left| == |right| && left != []
    ensures Observed(left, right) <= 1.0 && Expected(left, right) <= 1.0
    ensures Observed(left, right) == 1.0 <==> left == right
  {
    hide *;
    var s := Times(|left|, |left|) as real;
    SquareOfLength(|left|);
    ExpectedIsChance(left, right);
    ObservedIsAgreements(left, right);
    ChanceAtMostOne(left, right);
    AllAgree(left, right);
    FullAgreement(|left|, Agreements(left, right));
    ScaleComplement(Observed(left, right), s);
    ScaleSign(1.0 - Observed(left, right), s);
    ScaleComplement(Expected(left, right), s);
    ScaleSign(1.0 - Expected(left, right), s);
  }

  /** Chance agreement cannot exceed the mean of 1 and the observed agreement. */
  lemma RatesLinked(left: seq<Verdict>, right: seq<Verdict>)
    requires |left| == |right| && left != []
    ensures 2.0 * Expected(left, right) <= 1.0 + Observed(left, right)
  {
    hide *;
    var s := Times(|left|, |left|) as real;
    SquareOfLength(|left|);
    ExpectedIsChance(left, right);
    ObservedIsAgreements(left, right);
    ChanceBound(left, right);
    LinkedWhenScaled(Expected(left, right), Observed(left, right), s);
  }

  lemma LinkedWhenScaled(e: real, o: real, s: real)
    requires s > 0.0 && 2.0 * Scale(e, s) <= s + Scale(o, s)
    ensures 2.0 * e <= 1.0 + o
  {
    hide *;
    ScaleComplement(e, s);
    ScaleSum(1.0 - e, -e, s);
    ScaleNegated(e, s);
    ScaleSum(1.0 - e + -e, o, s);
    ScaleSign(1.0 - e + -e + o, s);
  }

  /** Certain chance agreement means one verdict throughout, so the lists agree: the code's
      `else 0.0` is never taken. */
  lemma CertainChanceAgrees(left: seq<Verdict>, right: seq<Verdict>)
    requires |left| == |right| && left != [] && Expected(left, right) == 1.0
    ensures Observed(left, right) == 1.0
  {
    hide Observed, Expected;
    RatesAtMostOne(left, right);
    RatesLinked(left, right);
  }

  lemma QuotientBounds(o: real, e: real)
    requires o <= 1.0 && e < 1.0 && 2.0 * e <= 1.0 + o
    ensures -1.0 <= (o - e) / (1.0 - e) <= 1.0
    ensures (o - e) / (1.0 - e) == 1.0 <==> o == 1.0
  {
    QuotientFor((o - e) / (1.0 - e), 1.0 - e, o - e);
  }

  lemma QuotientFor(k: real, d: real, x: real)
    requires d > 0.0 && k == x / d && -d <= x <= d
    ensures -1.0 <= k <= 1.0 && (k == 1.0 <==> x == d)
  {
    assert Scale(k, d) == x by { DivTimes(x, d); }
    hide Scale;
    ScaleComplement(k, d);
    ScaleSign(1.0 - k, d);
    ScaleSum(1.0, k, d);
    ScaleOne(d);
    ScaleSign(1.0 + k, d);
  }

  /** Kappa lies in [-1, 1] and is 1 exactly when the two non-empty lists agree everywhere. */
  lemma KappaRange(left: seq<Verdict>, right: seq<Verdict>)
    requires |left| == |right|
    ensures -1.0 <= RawKappa(left, right) <= 1.0
    ensures left != [] ==> (RawKappa(left, right) == 1.0 <==> left == right)
  {
    hide Observed, Expected;
    if left != [] {
      RatesAtMostOne(left, right);
      RatesLinked(left, right);
      if Expected(left, right) != 1.0 {
        QuotientBounds(Observed(left, right), Expected(left, right));
      }
    }
  }

  /** The law that determines kappa, on the counts: with n labels, A agreements and C the sum over the verdicts
      of the products of the tallies, kappa * (n^2 - C) = n * A - C; and where that says nothing, it is 1. */
  lemma KappaLaw(left: seq<Verdict>, right: seq<Verdict>)
    requires |left| == |right| && left != []
    ensures var n, agree, chance := |left|, Agreements(left, right), Chance(left, right);
            && chance <= n * n
            && (chance == n * n ==> RawKappa(left, right) == 1.0)
            && (chance < n * n ==>
                  && RawKappa(left, right) * (n * n - chance) as real == (n * agree - chance) as real
                  && (RawKappa(left, right) == 0.0 <==> n * agree == chance)
                  && (RawKappa(left, right) < 0.0 <==> n * agree < chance))
  {
    hide *;
    TimesIs(|left|, |left|);
    TimesIs(|left|, Agreements(left, right));
    KappaOnProducts(left, right);
  }

  lemma KappaMeans(left: seq<Verdict>, right: seq<Verdict>)
    requires |left| == |right| && left != []
    ensures Expected(left, right) == 1.0 && Observed(left, right) == 1.0 ==> RawKappa(left, right) == 1.0
    ensures Expected(left, right) != 1.0 ==>
              RawKappa(left, right) == (Observed(left, right) - Expected(left, right)) / (1.0 - Expected(left, right))
  {
    hide Observed, Expected;
  }

  lemma KappaOnProducts(left: seq<Verdict>, right: seq<Verdict>)
    requires |left| == |right| && left != []
    ensures var square, scaled, chance := Times(|left|, |left|), Times(|left|, Agreements(left, right)), Chance(left, right);
            && chance <= square
            && (chance == square ==> RawKappa(left, right) == 1.0)
            && (chance < square ==>
                  && RawKappa(left, right) * (square - chance) as real == (scaled - chance) as real
                  && (RawKappa(left, right) == 0.0 <==> scaled == chance)
                  && (RawKappa(left, right) < 0.0 <==> scaled < chance))
  {
    hide *;
    var square, scaled, chance := Times(|left|, |left|), Times(|left|, Agreements(left, right)), Chance(left, right);
    KappaMeans(left, right);
    SquareOfLength(|left|);
    ExpectedIsChance(left, right);
    ObservedIsAgreements(left, right);
    ChanceAtMostOne(left, right);
    ScaleComplement(Expected(left, right), square as real);
    ScaleSign(1.0 - Expected(left, right), square as real);
    if Expected(left, right) == 1.0 {
      CertainChanceAgrees(left, right);
    } else {
      RatesAtMostOne(left, right);
      TimesNonNegative(|left|, Agreements(left, right));
      KappaScaled(Observed(left, right), Expected(left, right), RawKappa(left, right), square, scaled, chance);
    }
  }

  lemma KappaScaled(o: real, e: real, k: real, square: nat, scaled: nat, chance: nat)
    requires square > 0 && e < 1.0 && k == (o - e) / (1.0 - e)
    requires Scale(e, square as real) == chance as real && Scale(o, square as real) == scaled as real
    ensures k * (square - chance) as real == (scaled - chance) as real
    ensures k == 0.0 <==> scaled == chance
    ensures k < 0.0 <==> scaled < chance
  {
    var s := square as real;
    assert Scale(k, 1.0 - e) == o - e by { DivTimes(o - e, 1.0 - e); }
    CastDifference(square, chance);
    CastDifference(scaled, chance);
    assert k * (square - chance) as real == Scale(k, (square - chance) as real);
    hide *;
    ScaleComplement(e, s);
    ScaleNegated(e, s);
    ScaleSum(o, -e, s);
    ScaleTwice(k, 1.0 - e, s);
    ScaleSign(k, 1.0 - e);
    ScaleSign(o - e, s);
    assert o + -e == o - e;
  }

  lemma CastDifference(a: nat, b: nat)
    ensures (a - b) as real == a as real - b as real
  {
  }

  lemma ScaleTwice(k: real, d: real, s: real)
    ensures Scale(Scale(k, d), s) == Scale(k, Scale(d, s))
  {
  }

  lemma KappaSymmetric(left: seq<Verdict>, right: seq<Verdict>)
    requires |left| == |right|
    ensures RawKappa(left, right) == RawKappa(right, left)
  {
    AgreementsSymmetric(left, right);
    if left != [] {
      assert Expected(left, right) == Expected(right, left);
    }
  }

  /** The reported value keeps the range. */
  lemma ReportedKappaRange(left: seq<Verdict>, right: seq<Verdict>)
    ensures CohenKappa(left, right) == Err(DifferentLengths) <==> |left| != |right|
    ensures CohenKappa(left, right).Ok? ==> -1.0 <= CohenKappa(left, right).value <= 1.0
    ensures |left| == |right| ==> -0.00005 <= CohenKappa(left, right).value - RawKappa(left, right) <= 0.00005
    ensures CohenKappa([], []) == Ok(0.0)
  {
    Round4Whole(0);
    if |left| == |right| {
      KappaRange(left, right);
      Round4Close(RawKappa(left, right));
      Round4Within(RawKappa(left, right), -1, 1);
    }
  }

  // ----- The confusion matrix -----

  type Matrix = map<Verdict, map<Verdict, nat>>

  ghost predicate RowIs(human: seq<Verdict>, predicted: seq<Verdict>, a: Verdict, row: map<Verdict, nat>)
    requires |human| == |predicted|
  {
    forall b: Verdict :: b in row && row[b] == Cell(human, predicted, a, b)
  }

  ghost predicate MatrixIs(human: seq<Verdict>, predicted: seq<Verdict>, m: Matrix)
    requires |human| == |predicted|
  {
    forall a: Verdict :: a in m && RowIs(human, predicted, a, m[a])
  }

  lemma CellExtend(left: seq<Verdict>, right: seq<Verdict>, i: nat, a: Verdict, b: Verdict)
    requires |left| == |right| && i < |left|
    ensures Cell(left[..i + 1], right[..i + 1], a, b)
            == Cell(left[..i], right[..i], a, b) + if left[i] == a && right[i] == b then 1 else 0
    decreases i
  {
    if i > 0 {
      CellExtend(left[1..], right[1..], i - 1, a, b);
      assert left[..i + 1][1..] == left[1..][..i] && right[..i + 1][1..] == right[1..][..i];
      assert left[..i][1..] == left[1..][..i - 1] && right[..i][1..] == right[1..][..i - 1];
    }
  }

  /** Cells incremented in place, one pair of labels at a time; `zip` raises on unequal lengths. */
  method ConfusionMatrix(human: seq<Verdict>, predicted: seq<Verdict>) returns (r: Result<Matrix, KappaError>)
    ensures r == Err(DifferentLengths) <==> |human| != |predicted|
    ensures r.Ok? ==> MatrixIs(human, predicted, r.value)
  {
    if |human| != |predicted| {
      return Err(DifferentLengths);
    }
    var zeros: map<Verdict, nat> := map[PASS := 0, REVIEW := 0, FAIL := 0];
    var matrix: Matrix := map[PASS := zeros, REVIEW := zeros, FAIL := zeros];
    forall a: Verdict ensures a in matrix && RowIs([], [], a, matrix[a]) {
      match a
      case PASS => ZeroRow(a, zeros);
      case REVIEW => ZeroRow(a, zeros);
      case FAIL => ZeroRow(a, zeros);
    }
    for i := 0 to |human|
      invariant MatrixIs(human[..i], predicted[..i], matrix)
    {
      IncrementCell(human, predicted, i, matrix);
      var expected, actual := human[i], predicted[i];
      matrix := matrix[expected := matrix[expected][actual := matrix[expected][actual] + 1]];
    }
    assert human[..|human|] == human && predicted[..|predicted|] == predicted;
    return Ok(matrix);
  }

  lemma ZeroRow(a: Verdict, row: map<Verdict, nat>)
    requires row == map[PASS := 0, REVIEW := 0, FAIL := 0]
    ensures RowIs([], [], a, row)
  {
    forall b: Verdict ensures b in row && row[b] == 0 {
      match b
      case PASS =>
      case REVIEW =>
      case FAIL =>
    }
  }

  lemma IncrementCell(human: seq<Verdict>, predicted: seq<Verdict>, i: nat, m: Matrix)
    requires |human| == |predicted| && i < |human| && MatrixIs(human[..i], predicted[..i], m)
    ensures human[i] in m && predicted[i] in m[human[i]]
    ensures MatrixIs(human[..i + 1], predicted[..i + 1],
                     m[human[i] := m[human[i]][predicted[i] := m[human[i]][predicted[i]] + 1]])
  {
    hide Cell;
    assert RowIs(human[..i], predicted[..i], human[i], m[human[i]]);
    var next := m[human[i] := m[human[i]][predicted[i] := m[human[i]][predicted[i]] + 1]];
    forall a: Verdict ensures a in next && RowIs(human[..i + 1], predicted[..i + 1], a, next[a]) {
      assert RowIs(human[..i], predicted[..i], a, m[a]);
      forall b: Verdict ensures b in next[a] && next[a][b] == Cell(human[..i + 1], predicted[..i + 1], a, b) {
        CellExtend(human, predicted, i, a, b);
      }
    }
  }

  /** Rows sum to the human tallies. */
  lemma {:induction false} MatrixRows(human: seq<Verdict>, predicted: seq<Verdict>, v: Verdict)
    requires |human| == |predicted|
    ensures Cell(human, predicted, v, PASS) + Cell(human, predicted, v, REVIEW) + Cell(human, predicted, v, FAIL)
            == Tally(human, v)
  {
    if human != [] {
      MatrixRows(human[1..], predicted[1..], v);
    }
  }

  /** Columns sum to the predicted tallies. */
  lemma {:induction false} MatrixColumns(human: seq<Verdict>, predicted: seq<Verdict>, v: Verdict)
    requires |human| == |predicted|
    ensures Cell(human, predicted, PASS, v) + Cell(human, predicted, REVIEW, v) + Cell(human, predicted, FAIL, v)
            == Tally(predicted, v)
  {
    if human != [] {
      MatrixColumns(human[1..], predicted[1..], v);
    }
  }

  /** The diagonal sums to the agreements. */
  lemma {:induction false} MatrixTrace(human: seq<Verdict>, predicted: seq<Verdict>)
    requires |human| == |predicted|
    ensures Cell(human, predicted, PASS, PASS) + Cell(human, predicted, REVIEW, REVIEW) + Cell(human, predicted, FAIL, FAIL)
            == Agreements(human, predicted)
  {
    if human != [] {
      MatrixTrace(human[1..], predicted[1..]);
    }
  }
}
