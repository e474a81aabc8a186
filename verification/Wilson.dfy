/**
 The Wilson lower bound in exact arithmetic. The square root the code takes is given by its
 defining property: a non-negative `root` whose square is the radicand.
 */
module Wilson {
  import opened Prelude
  import opened Rounding
  import opened RealArithmetic

  /** The z-score table; `None` for any other confidence level. */
  function ZScore(confidence: real): Option<real> {
    if confidence == 0.9 then Some(1.6448536269514722)
    else if confidence == 0.95 then Some(1.959963984540054)
    else if confidence == 0.99 then Some(2.5758293035489004)
    else None
  }

  function Proportion(k: nat, n: nat): real
    requires 0 < n
  {
    k as real / n as real
  }

  /** The radicand of the margin. */
  function Radicand(p: real, n: nat, z: real): real
    requires 0 < n
  {
    (p * (1.0 - p) + z * z / (4.0 * n as real)) / n as real
  }

  /** The square root is taken of a number that is not negative. */
  lemma RadicandNonNegative(k: nat, n: nat, z: real)
    requires 0 < n && k <= n
    ensures Radicand(Proportion(k, n), n, z) >= 0.0
  {
    hide Proportion;
    var p, square := Proportion(k, n), z * z;
    ProportionRange(k, n);
    MulNonNegative(p, 1.0 - p);
    assert square >= 0.0 by {
      if z >= 0.0 { MulNonNegative(z, z); } else { MulNonNegative(-z, -z); }
    }
    DivWeakOrder(0.0, square, 4.0 * n as real);
    DivWeakOrder(0.0, p * (1.0 - p) + square / (4.0 * n as real), n as real);
  }

  ghost predicate IsRoot(root: real, p: real, n: nat, z: real)
    requires 0 < n
  {
    root >= 0.0 && root * root == Radicand(p, n, z)
  }

  lemma PositiveDenominator(z: real, n: nat)
    requires 0 < n
    ensures 1.0 + z * z / n as real >= 1.0
  {
    assert z * z >= 0.0;
  }

  /** (center - margin) / denominator, before the maximum with 0 and the rounding. */
  function RawBound(p: real, n: nat, z: real, root: real): real
    requires 0 < n
  {
    PositiveDenominator(z, n);
    (p + z * z / (2.0 * n as real) - z * root) / (1.0 + z * z / n as real)
  }

  datatype WilsonError = EmptySample | SuccessesOutOfRange | UnknownConfidence

  /** `wilson_lower_bound`, its square root supplied as `root`. */
  function WilsonLowerBound(successes: int, total: int, confidence: real, root: real): Result<real, WilsonError> {
    if total < 1 then Err(EmptySample)
    else if successes < 0 || successes > total then Err(SuccessesOutOfRange)
    else
      match ZScore(confidence)
      case None => Err(UnknownConfidence)
      case Some(z) =>
        var raw := RawBound(Proportion(successes, total), total, z, root);
        Ok(Round4(if raw > 0.0 then raw else 0.0))
  }

  // ----- The bound in terms of w = z * z / n and the margin m = z * root -----

  /** What the code's margin satisfies. */
  ghost predicate IsMargin(p: real, w: real, m: real) {
    0.0 <= p <= 1.0 && w > 0.0 && m >= 0.0 && m * m == w * (p * (1.0 - p)) + w * w / 4.0
  }

  function Lower(p: real, w: real, m: real): real
    requires w > 0.0
  {
    (p + w / 2.0 - m) / (1.0 + w)
  }

  /** (p - q)^2 - w q (1 - q): zero exactly at the interval's two ends. */
  function Quad(p: real, w: real, q: real): real {
    (p - q) * (p - q) - w * (q * (1.0 - q))
  }

  /** Distance of `q` from the interval's centre, scaled by the denominator. */
  function Offset(p: real, w: real, q: real): real {
    (1.0 + w) * q - (p + w / 2.0)
  }

  lemma OffsetOfLower(p: real, w: real, m: real)
    requires w > 0.0
    ensures Offset(p, w, Lower(p, w, m)) == -m
  {
  }

  lemma OffsetOrder(p: real, w: real, q: real, r: real)
    requires w > 0.0
    ensures Offset(p, w, q) <= Offset(p, w, r) <==> q <= r
    ensures Offset(p, w, q) < Offset(p, w, r) <==> q < r
  {
    assert Offset(p, w, r) - Offset(p, w, q) == (1.0 + w) * (r - q);
  }

  lemma CompleteTheSquare(p: real, w: real, m: real, q: real)
    requires IsMargin(p, w, m)
    ensures (1.0 + w) * Quad(p, w, q) == Offset(p, w, q) * Offset(p, w, q) - m * m
  {
    var c := p + w / 2.0;
    assert Offset(p, w, q) * Offset(p, w, q) == (1.0 + w) * (1.0 + w) * (q * q) - 2.0 * ((1.0 + w) * q * c) + c * c;
    assert c * c == p * p + p * w + w * w / 4.0;
    assert Quad(p, w, q) == p * p - 2.0 * (p * q) + q * q - w * q + w * (q * q);
    assert Quad(p, w, q) == (1.0 + w) * (q * q) - 2.0 * (q * c) + p * p;
    assert w * (p * (1.0 - p)) == w * p - w * (p * p);
  }

  lemma SquareBelow(x: real, m: real)
    requires m >= 0.0
    ensures x * x <= m * m ==> -m <= x <= m
    ensures x * x < m * m ==> -m < x < m
    ensures x < 0.0 && x * x > m * m ==> x < -m
    ensures x * x == m * m ==> x == m || x == -m
  {
    assert x * x - m * m == (x - m) * (x + m);
  }

  lemma ScaledSign(w: real, y: real)
    requires w > 0.0
    ensures y <= 0.0 <==> (1.0 + w) * y <= 0.0
    ensures y < 0.0 <==> (1.0 + w) * y < 0.0
  {
  }

  /** Wherever the quadratic is not positive, the bound lies at or below. */
  lemma BoundIsBelow(p: real, w: real, m: real, q: real)
    requires IsMargin(p, w, m)
    ensures Quad(p, w, q) <= 0.0 ==> Lower(p, w, m) <= q
    ensures Quad(p, w, q) < 0.0 ==> Lower(p, w, m) < q
  {
    CompleteTheSquare(p, w, m, q);
    ScaledSign(w, Quad(p, w, q));
    SquareBelow(Offset(p, w, q), m);
    OffsetOfLower(p, w, m);
    OffsetOrder(p, w, Lower(p, w, m), q);
  }

  lemma BoundIsRoot(p: real, w: real, m: real)
    requires IsMargin(p, w, m)
    ensures Quad(p, w, Lower(p, w, m)) == 0.0
  {
    var l := Lower(p, w, m);
    CompleteTheSquare(p, w, m, l);
    OffsetOfLower(p, w, m);
    ScaledSign(w, Quad(p, w, l));
  }

  lemma CentreSquared(p: real, w: real, m: real)
    requires IsMargin(p, w, m)
    ensures (p + w / 2.0) * (p + w / 2.0) - m * m == (1.0 + w) * (p * p)
  {
    var c := p + w / 2.0;
    assert c * c == p * p + p * w + w * w / 4.0;
    assert w * (p * (1.0 - p)) == w * p - w * (p * p);
  }

  lemma QuadAtProportion(p: real, w: real)
    requires 0.0 <= p <= 1.0 && w > 0.0
    ensures Quad(p, w, p) <= 0.0
  {
    MulNonNegative(p, 1.0 - p);
    MulNonNegative(w, p * (1.0 - p));
  }

  lemma BoundRange(p: real, w: real, m: real)
    requires IsMargin(p, w, m)
    ensures 0.0 <= Lower(p, w, m) <= p && Lower(p, w, m) < 1.0
    ensures p > 0.0 ==> Lower(p, w, m) > 0.0
  {
    var c := p + w / 2.0;
    CentreSquared(p, w, m);
    MulNonNegative(1.0 + w, p * p);
    if p > 0.0 {
      var square := SquarePositive(p);
      MulPositive(1.0 + w, square);
    }
    SquareBelow(m, c);
    QuadAtProportion(p, w);
    BoundIsBelow(p, w, m, p);
    LowerSign(p, w, m);
  }

  lemma LowerSign(p: real, w: real, m: real)
    requires IsMargin(p, w, m)
    ensures m <= p + w / 2.0 ==> 0.0 <= Lower(p, w, m)
    ensures m < p + w / 2.0 ==> 0.0 < Lower(p, w, m)
    ensures Lower(p, w, m) < 1.0
  {
    OffsetOfLower(p, w, m);
    OffsetOrder(p, w, 0.0, Lower(p, w, m));
    OffsetOrder(p, w, Lower(p, w, m), 1.0);
  }

  /** A better proportion raises the quadratic below it. */
  lemma QuadShift(p: real, p': real, w: real, l: real)
    requires l <= p < p'
    ensures Quad(p, w, l) < Quad(p', w, l)
  {
    MulPositive(p' - p, p' + p - 2.0 * l);
    assert (p' - l) * (p' - l) - (p - l) * (p - l) == (p' - p) * (p' + p - 2.0 * l);
  }

  /** Left of the centre, a positive quadratic means left of the bound. */
  lemma BoundIsAbove(p: real, w: real, m: real, q: real)
    requires IsMargin(p, w, m) && Offset(p, w, q) < 0.0 && Quad(p, w, q) > 0.0
    ensures q < Lower(p, w, m)
  {
    hide Quad;
    CompleteTheSquare(p, w, m, q);
    MulPositive(1.0 + w, Quad(p, w, q));
    SquareBelow(Offset(p, w, q), m);
    OffsetOfLower(p, w, m);
    OffsetOrder(p, w, q, Lower(p, w, m));
  }

  lemma BoundGrowsWithProportion(p: real, p': real, w: real, m: real, m': real)
    requires IsMargin(p, w, m) && IsMargin(p', w, m') && p < p'
    ensures Lower(p, w, m) < Lower(p', w, m')
  {
    hide Lower, Quad;
    var l := Lower(p, w, m);
    BoundRange(p, w, m);
    BoundIsRoot(p, w, m);
    QuadShift(p, p', w, l);
    OffsetOfLower(p, w, m);
    assert Offset(p', w, l) == Offset(p, w, l) - (p' - p);
    BoundIsAbove(p', w, m', l);
  }

  /** A wider interval lowers the quadratic inside the unit interval. */
  lemma QuadWiden(p: real, w: real, w': real, l: real)
    requires w < w' && 0.0 <= l < 1.0
    ensures Quad(p, w', l) <= Quad(p, w, l)
    ensures l > 0.0 ==> Quad(p, w', l) < Quad(p, w, l)
  {
    var y := l * (1.0 - l);
    MulNonNegative(l, 1.0 - l);
    if l > 0.0 {
      MulPositive(l, 1.0 - l);
      MulOrder(w, w', y);
    } else {
      assert y == 0.0;
    }
  }

  lemma BoundShrinksWithWidth(p: real, w: real, w': real, m: real, m': real)
    requires IsMargin(p, w, m) && IsMargin(p, w', m') && w < w'
    ensures Lower(p, w', m') <= Lower(p, w, m)
    ensures p > 0.0 ==> Lower(p, w', m') < Lower(p, w, m)
  {
    hide Lower, Quad;
    var l := Lower(p, w, m);
    BoundRange(p, w, m);
    BoundIsRoot(p, w, m);
    QuadWiden(p, w, w', l);
    BoundIsBelow(p, w', m', l);
  }

  // ----- The same facts about the code's own expression -----

  function Width(n: nat, z: real): real
    requires 0 < n
  {
    z * z / n as real
  }

  lemma WidthFacts(n: nat, z: real)
    requires 0 < n && z > 0.0
    ensures Width(n, z) > 0.0 && Width(n, z) * n as real == z * z
    ensures z * z / (2.0 * n as real) == Width(n, z) / 2.0
    ensures z * z / (4.0 * n as real) == Width(n, z) / 4.0
  {
    var square := SquarePositive(z);
    DivOrder(0.0, square, n as real);
    DivTimes(z * z, n as real);
  }

  lemma MarginSquared(p: real, n: nat, z: real, root: real)
    requires 0 < n && z > 0.0 && IsRoot(root, p, n, z)
    ensures (z * root) * (z * root) == Width(n, z) * (p * (1.0 - p)) + Width(n, z) * Width(n, z) / 4.0
  {
    var w, x, r := Width(n, z), n as real, root * root;
    WidthFacts(n, z);
    var inner := p * (1.0 - p) + w / 4.0;
    assert r == inner / x;
    DivTimes(inner, x);
    assert (z * root) * (z * root) == (z * z) * r == (w * x) * r == w * (r * x) == w * inner;
    assert w * inner == w * (p * (1.0 - p)) + w * (w / 4.0);
  }

  lemma RawBoundIsLower(p: real, n: nat, z: real, root: real)
    requires 0 < n && 0.0 <= p <= 1.0 && z > 0.0 && IsRoot(root, p, n, z)
    ensures IsMargin(p, Width(n, z), z * root)
    ensures RawBound(p, n, z, root) == Lower(p, Width(n, z), z * root)
  {
    WidthFacts(n, z);
    MarginSquared(p, n, z, root);
    MulNonNegative(z, root);
  }

  lemma ProportionRange(k: nat, n: nat)
    requires 0 < n && k <= n
    ensures 0.0 <= Proportion(k, n) <= 1.0
    ensures k > 0 ==> Proportion(k, n) > 0.0
  {
    var x, r := k as real, n as real;
    assert 0.0 / r == 0.0 && r / r == 1.0;
    DivWeakOrder(0.0, x, r);
    DivWeakOrder(x, r, r);
    if k > 0 {
      DivOrder(0.0, x, r);
    }
  }

  /** `q` is a solution of the score equation (k/n - q)^2 = z^2 q (1 - q) / n. */
  ghost predicate SolvesScoreEquation(k: nat, n: nat, z: real, q: real)
    requires 0 < n
  {
    (Proportion(k, n) - q) * (Proportion(k, n) - q) == z * z / n as real * (q * (1.0 - q))
  }

  /** The bound solves the score equation, and is the smaller of its solutions. */
  lemma BoundSolvesScoreEquation(k: nat, n: nat, z: real, root: real)
    requires 0 < n && k <= n && z > 0.0 && IsRoot(root, Proportion(k, n), n, z)
    ensures SolvesScoreEquation(k, n, z, RawBound(Proportion(k, n), n, z, root))
    ensures forall q | SolvesScoreEquation(k, n, z, q) :: RawBound(Proportion(k, n), n, z, root) <= q
  {
    hide Proportion, Lower, RawBound;
    var p, w := Proportion(k, n), Width(n, z);
    ProportionRange(k, n);
    RawBoundIsLower(p, n, z, root);
    BoundIsRoot(p, w, z * root);
    forall q | SolvesScoreEquation(k, n, z, q) ensures Lower(p, w, z * root) <= q {
      BoundIsBelow(p, w, z * root, q);
    }
  }

  /** It lies between 0 and k/n, so the maximum with 0 never changes it. */
  lemma BoundWithinProportion(k: nat, n: nat, z: real, root: real)
    requires 0 < n && k <= n && z > 0.0 && IsRoot(root, Proportion(k, n), n, z)
    ensures 0.0 <= RawBound(Proportion(k, n), n, z, root) <= Proportion(k, n)
    ensures RawBound(Proportion(k, n), n, z, root) == 0.0 <==> k == 0
  {
    ProportionRange(k, n);
    RawBoundIsLower(Proportion(k, n), n, z, root);
    BoundRange(Proportion(k, n), Width(n, z), z * root);
  }

  /** With every trial successful it is n / (n + z^2). */
  lemma BoundAtAllSuccesses(n: nat, z: real, root: real)
    requires 0 < n && z > 0.0 && IsRoot(root, Proportion(n, n), n, z)
    ensures n as real + z * z > 0.0
    ensures RawBound(Proportion(n, n), n, z, root) == n as real / (n as real + z * z)
  {
    assert Proportion(n, n) == 1.0;
    var w, m := Width(n, z), z * root;
    RawBoundIsLower(1.0, n, z, root);
    WidthFacts(n, z);
    hide RawBound, Proportion, IsRoot, Width;
    LowerAtOne(w, m);
    AllSuccessesScaled(w, n as real, z * z);
  }

  lemma LowerAtOne(w: real, m: real)
    requires w > 0.0 && IsMargin(1.0, w, m)
    ensures Lower(1.0, w, m) == 1.0 / (1.0 + w)
  {
    SquareBelow(m, w / 2.0);
    assert m == w / 2.0;
  }

  lemma AllSuccessesScaled(w: real, x: real, square: real)
    requires w > 0.0 && x > 0.0 && w * x == square
    ensures x + square > 0.0 && 1.0 / (1.0 + w) == x / (x + square)
  {
    FractionScaled(1.0, 1.0 + w, x);
    assert (1.0 + w) * x == x + square;
  }

  lemma BoundGrowsWithSuccesses(k: nat, k': nat, n: nat, z: real, root: real, root': real)
    requires k < k' <= n && z > 0.0
    requires IsRoot(root, Proportion(k, n), n, z) && IsRoot(root', Proportion(k', n), n, z)
    ensures RawBound(Proportion(k, n), n, z, root) < RawBound(Proportion(k', n), n, z, root')
  {
    ProportionRange(k, n);
    ProportionRange(k', n);
    RawBoundIsLower(Proportion(k, n), n, z, root);
    RawBoundIsLower(Proportion(k', n), n, z, root');
    DivOrder(k as real, k' as real, n as real);
    BoundGrowsWithProportion(Proportion(k, n), Proportion(k', n), Width(n, z), z * root, z * root');
  }

  lemma BoundShrinksWithConfidence(k: nat, n: nat, z: real, z': real, root: real, root': real)
    requires 0 < n && k <= n && 0.0 < z < z'
    requires IsRoot(root, Proportion(k, n), n, z) && IsRoot(root', Proportion(k, n), n, z')
    ensures RawBound(Proportion(k, n), n, z', root') <= RawBound(Proportion(k, n), n, z, root)
    ensures k > 0 ==> RawBound(Proportion(k, n), n, z', root') < RawBound(Proportion(k, n), n, z, root)
  {
    ProportionRange(k, n);
    RawBoundIsLower(Proportion(k, n), n, z, root);
    RawBoundIsLower(Proportion(k, n), n, z', root');
    SquareOrder(z, z');
    DivOrder(z * z, z' * z', n as real);
    BoundShrinksWithWidth(Proportion(k, n), Width(n, z), Width(n, z'), z * root, z' * root');
  }

  /** More confidence means a larger z-score, and each is the two-sided quantile to four digits. */
  lemma ZScoresGrow(c: real, c': real)
    requires ZScore(c).Some? && ZScore(c').Some? && c < c'
    ensures 0.0 < ZScore(c).value < ZScore(c').value
    ensures c == 0.9 ==> 1.6448 < ZScore(c).value < 1.6449
    ensures c == 0.95 || c' == 0.95 ==> 1.9599 < ZScore(0.95).value < 1.96
    ensures c' == 0.99 ==> 2.5758 < ZScore(c').value < 2.5759
  {
  }

  /** The reported value: it raises exactly on the three bad inputs, is the exact bound up to rounding, lies in
      [0, 1] and never exceeds the rounded success rate. */
  lemma ReportedBound(k: int, n: int, confidence: real, root: real)
    requires n >= 1 && 0 <= k <= n && ZScore(confidence).Some? ==>
               IsRoot(root, Proportion(k, n), n, ZScore(confidence).value)
    ensures WilsonLowerBound(k, n, confidence, root).Ok? <==>
              n >= 1 && 0 <= k <= n && confidence in {0.9, 0.95, 0.99}
    ensures var r := WilsonLowerBound(k, n, confidence, root);
            r.Ok? ==> 0.0 <= r.value <= 1.0 && r.value <= Round4(Proportion(k, n))
    ensures var r := WilsonLowerBound(k, n, confidence, root);
            r.Ok? ==> var exact := RawBound(Proportion(k, n), n, ZScore(confidence).value, root);
                      exact - 0.00005 <= r.value <= exact + 0.00005
    ensures WilsonLowerBound(k, n, confidence, root) == Err(EmptySample) <==> n < 1
    ensures WilsonLowerBound(k, n, confidence, root) == Err(SuccessesOutOfRange) <==> n >= 1 && !(0 <= k <= n)
  {
    if n >= 1 && 0 <= k <= n && ZScore(confidence).Some? {
      var z := ZScore(confidence).value;
      ProportionRange(k, n);
      BoundWithinProportion(k, n, z, root);
      var raw := RawBound(Proportion(k, n), n, z, root);
      Round4Within(raw, 0, 1);
      Round4Monotone(raw, Proportion(k, n));
      Round4Close(raw);
    }
  }
}
