/**
 * `pearson` from compare_goodreads.py: the Pearson product-moment correlation
 * coefficient of a list of (my rating, their rating) pairs, computed with
 * Python 2 integer arithmetic up to the final square roots and division.
 *
 * The floating-point tail of the computation is not modelled. A result is
 * either the literal 0 of the two degenerate branches (`NoCorrelation`) or
 * `Ratio(num, vx, vy)`, standing for the float `num / (sqrt(vx) * sqrt(vy))`.
 */
module PearsonCorrelation {
  import opened RatingStats

  /** One book rated by both users. */
  datatype RatingPair = RatingPair(mine: int, theirs: int)

  /** What `pearson` returns, with the square roots and the division left symbolic. */
  datatype Coefficient = NoCorrelation | Ratio(numerator: int, varianceX: int, varianceY: int)

  /** The user's own ratings, in order. */
  function Xs(ps: seq<RatingPair>): seq<int>
  {
    seq(|ps|, k requires 0 <= k < |ps| => ps[k].mine)
  }

  /** The friend's ratings, in order. */
  function Ys(ps: seq<RatingPair>): seq<int>
  {
    seq(|ps|, k requires 0 <= k < |ps| => ps[k].theirs)
  }

  /** The numerator as written: `sum_xy - (sum_x * sum_y) / n` with floor division. */
  function Numerator(ps: seq<RatingPair>): int
    requires |ps| > 0
  {
    Dot(Xs(ps), Ys(ps)) - (Sum(Xs(ps)) * Sum(Ys(ps))) / |ps|
  }

  /**
   * The coefficient as the source computes it. The denominator
   * `sqrt(vx) * sqrt(vy)` is zero exactly when one of the two (non-negative,
   * see PearsonDenominator) variance terms is zero.
   */
  function PearsonOf(ps: seq<RatingPair>): Coefficient
  {
    if |ps| < 1 then NoCorrelation
    else
      var vx, vy := VarianceTerm(Xs(ps)), VarianceTerm(Ys(ps));
      if vx == 0 || vy == 0 then NoCorrelation else Ratio(Numerator(ps), vx, vy)
  }

  /** One pass over the pairs, accumulating the six integer sums. */
  method Pearson(ratings: seq<RatingPair>) returns (r: Coefficient)
    ensures r == PearsonOf(ratings)
  {
    if |ratings| < 1 {
      return NoCorrelation;
    }
    var sumXY, sumX, sumY, sumX2, sumY2, n := 0, 0, 0, 0, 0, 0;
    for i := 0 to |ratings|
      invariant n == i
      invariant sumXY == Dot(Xs(ratings)[..i], Ys(ratings)[..i])
      invariant sumX == Sum(Xs(ratings)[..i]) && sumY == Sum(Ys(ratings)[..i])
      invariant sumX2 == SumSquares(Xs(ratings)[..i]) && sumY2 == SumSquares(Ys(ratings)[..i])
    {
      PrefixSums(Xs(ratings), Ys(ratings), i);
      PrefixSums(Xs(ratings), Xs(ratings), i);
      PrefixSums(Ys(ratings), Ys(ratings), i);
      n := n + 1;
      var x := ratings[i].mine;
      var y := ratings[i].theirs;
      sumXY := sumXY + x * y;
      sumX := sumX + x;
      sumY := sumY + y;
      sumX2 := sumX2 + x * x;
      sumY2 := sumY2 + y * y;
    }
    assert Xs(ratings)[..n] == Xs(ratings) && Ys(ratings)[..n] == Ys(ratings);
    var varianceX := sumX2 - (sumX * sumX) / n;
    var varianceY := sumY2 - (sumY * sumY) / n;
    if varianceX == 0 || varianceY == 0 {
      r := NoCorrelation;
    } else {
      r := Ratio(sumXY - (sumX * sumY) / n, varianceX, varianceY);
    }
  }

  /**
   * Neither argument of `sqrt` is negative, and a returned ratio has a
   * strictly positive denominator.
   */
  lemma PearsonDenominator(ps: seq<RatingPair>)
    requires |ps| > 0
    ensures VarianceTerm(Xs(ps)) >= 0 && VarianceTerm(Ys(ps)) >= 0
    ensures PearsonOf(ps).Ratio? ==> PearsonOf(ps).varianceX > 0 && PearsonOf(ps).varianceY > 0
  {
    VarianceTermNonNegative(Xs(ps));
    VarianceTermNonNegative(Ys(ps));
  }

  /**
   * `pearson` takes one of its two zero branches (the literal 0) exactly for
   * the empty list and for lists in which one of the two users gave every book
   * the same rating. A `Ratio` with a zero numerator is the float 0.0 as well.
   */
  lemma PearsonNoCorrelationIff(ps: seq<RatingPair>)
    ensures PearsonOf(ps) == NoCorrelation <==> |ps| == 0 || AllEqual(Xs(ps)) || AllEqual(Ys(ps))
  {
    if |ps| > 0 {
      VarianceTermZeroIff(Xs(ps));
      VarianceTermZeroIff(Ys(ps));
    }
  }

  /** When both users rated every book alike, the ratio is `v / (sqrt(v) * sqrt(v))`, 1 in real arithmetic. */
  lemma PearsonIdenticalRatings(ps: seq<RatingPair>)
    requires forall k :: 0 <= k < |ps| ==> ps[k].mine == ps[k].theirs
    requires !AllEqual(Xs(ps))
    ensures |ps| > 0
    ensures PearsonOf(ps) == Ratio(VarianceTerm(Xs(ps)), VarianceTerm(Xs(ps)), VarianceTerm(Xs(ps)))
  {
    assert Xs(ps) == Ys(ps);
    PearsonNoCorrelationIff(ps);
  }

  /** The perfectly correlated example `[(1,1),(2,2),(3,3)]` yields 2 / (sqrt(2) * sqrt(2)), 1 in real arithmetic. */
  lemma PerfectPositiveExample()
    ensures PearsonOf([RatingPair(1, 1), RatingPair(2, 2), RatingPair(3, 3)]) == Ratio(2, 2, 2)
  {
    var ps := [RatingPair(1, 1), RatingPair(2, 2), RatingPair(3, 3)];
    var xs := Xs(ps);
    assert xs == [1, 2, 3] && Ys(ps) == xs;
    assert [1, 2, 3][..2] == [1, 2] && [1, 2][..1] == [1] && [1][..0] == [];
    assert Sum([1]) == 1 && Sum([1, 2]) == 3 && Sum(xs) == 6;
    assert Dot([1], [1]) == 1 && Dot([1, 2], [1, 2]) == 5 && SumSquares(xs) == 14;
  }

  /**
   * The perfectly anti-correlated example `[(1,5),(2,4),(3,3),(4,2),(5,1)]`
   * yields -10 / (sqrt(10) * sqrt(10)), -1 in real arithmetic: there 25 divides `sum_x^2`, so
   * floor division loses nothing.
   */
  lemma PerfectNegativeExample()
    ensures PearsonOf([RatingPair(1, 5), RatingPair(2, 4), RatingPair(3, 3), RatingPair(4, 2), RatingPair(5, 1)])
            == Ratio(-10, 10, 10)
  {
    var ps := [RatingPair(1, 5), RatingPair(2, 4), RatingPair(3, 3), RatingPair(4, 2), RatingPair(5, 1)];
    var xs, ys := Xs(ps), Ys(ps);
    assert xs == [1, 2, 3, 4, 5] && ys == [5, 4, 3, 2, 1];
    assert xs[..4] == [1, 2, 3, 4] && [1, 2, 3, 4][..3] == [1, 2, 3] && [1, 2, 3][..2] == [1, 2];
    assert [1, 2][..1] == [1] && [1][..0] == [];
    assert ys[..4] == [5, 4, 3, 2] && [5, 4, 3, 2][..3] == [5, 4, 3] && [5, 4, 3][..2] == [5, 4];
    assert [5, 4][..1] == [5] && [5][..0] == [];
    assert Sum([1]) == 1 && Sum([1, 2]) == 3 && Sum([1, 2, 3]) == 6 && Sum([1, 2, 3, 4]) == 10;
    assert Sum([5]) == 5 && Sum([5, 4]) == 9 && Sum([5, 4, 3]) == 12 && Sum([5, 4, 3, 2]) == 14;
    assert Sum(xs) == 15 && Sum(ys) == 15;
    assert Dot([1], [1]) == 1 && Dot([1, 2], [1, 2]) == 5 && Dot([1, 2, 3], [1, 2, 3]) == 14;
    assert Dot([1, 2, 3, 4], [1, 2, 3, 4]) == 30 && SumSquares(xs) == 55;
    assert Dot([5], [5]) == 25 && Dot([5, 4], [5, 4]) == 41 && Dot([5, 4, 3], [5, 4, 3]) == 50;
    assert Dot([5, 4, 3, 2], [5, 4, 3, 2]) == 54 && SumSquares(ys) == 55;
    assert Dot([1], [5]) == 5 && Dot([1, 2], [5, 4]) == 13 && Dot([1, 2, 3], [5, 4, 3]) == 22;
    assert Dot([1, 2, 3, 4], [5, 4, 3, 2]) == 30 && Dot(xs, ys) == 35;
  }

  /**
   * A zero that is not a zero branch: `[(1,1),(2,2),(3,1)]` has no constant
   * series, yet its numerator `8 - 24 / 3` is 0, so `pearson` returns
   * 0 / (sqrt(2) * sqrt(1)) = 0.0.
   */
  lemma ZeroNumeratorExample()
    ensures PearsonOf([RatingPair(1, 1), RatingPair(2, 2), RatingPair(3, 1)]) == Ratio(0, 2, 1)
  {
    var ps := [RatingPair(1, 1), RatingPair(2, 2), RatingPair(3, 1)];
    var xs, ys := Xs(ps), Ys(ps);
    assert xs == [1, 2, 3] && ys == [1, 2, 1];
    assert [1, 2, 3][..2] == [1, 2] && [1, 2][..1] == [1] && [1][..0] == [];
    assert [1, 2, 1][..2] == [1, 2];
    assert Sum([1]) == 1 && Sum([1, 2]) == 3 && Sum(xs) == 6 && Sum(ys) == 4;
    assert Dot([1], [1]) == 1 && Dot([1, 2], [1, 2]) == 5 && SumSquares(xs) == 14 && SumSquares(ys) == 6;
    assert Dot(xs, ys) == 8;
  }

  // ---------------------------------------------------------------------------
  // The effect of Python 2 floor division, and the coefficient it was meant to be
  // ---------------------------------------------------------------------------

  /**
   * The intended coefficient in exact integers: numerator and both variance
   * terms multiplied by `n`, which leaves the real quotient unchanged and
   * needs no division at all.
   */
  function ExactPearsonOf(ps: seq<RatingPair>): Coefficient
  {
    if |ps| < 1 then NoCorrelation
    else
      var vx, vy := ExactVariance(Xs(ps)), ExactVariance(Ys(ps));
      if vx == 0 || vy == 0 then NoCorrelation
      else Ratio(|ps| * Dot(Xs(ps), Ys(ps)) - Sum(Xs(ps)) * Sum(Ys(ps)), vx, vy)
  }

  /**
   * Each integer term as written is its exact counterpart divided by `n` and
   * rounded UP: `n * term == exact + remainder` with `0 <= remainder < n`.
   */
  lemma AsWrittenRoundsUp(ps: seq<RatingPair>)
    requires |ps| > 0
    ensures var n, sx, sy := |ps|, Sum(Xs(ps)), Sum(Ys(ps));
            && n * Numerator(ps) == (n * Dot(Xs(ps), Ys(ps)) - sx * sy) + (sx * sy) % n
            && n * VarianceTerm(Xs(ps)) == ExactVariance(Xs(ps)) + (sx * sx) % n
            && n * VarianceTerm(Ys(ps)) == ExactVariance(Ys(ps)) + (sy * sy) % n
  {
    var n, sx, sy := |ps|, Sum(Xs(ps)), Sum(Ys(ps));
    ScaledFloorDifference(n, Dot(Xs(ps), Ys(ps)), sx * sy);
    VarianceTermScaled(Xs(ps));
    VarianceTermScaled(Ys(ps));
  }

  /** Both versions take the degenerate branch on exactly the same inputs. */
  lemma ExactPearsonSameDegenerateCases(ps: seq<RatingPair>)
    ensures ExactPearsonOf(ps) == NoCorrelation <==> PearsonOf(ps) == NoCorrelation
  {
    ExactVarianceZeroIff(Xs(ps));
    ExactVarianceZeroIff(Ys(ps));
    PearsonNoCorrelationIff(ps);
  }

  /**
   * The exact coefficient lies in [-1, 1]: its squared numerator is at most the
   * product of its (positive) variance terms.
   */
  lemma ExactPearsonBounded(ps: seq<RatingPair>)
    ensures ExactPearsonOf(ps).Ratio? ==>
              var r := ExactPearsonOf(ps);
              r.varianceX > 0 && r.varianceY > 0 && r.numerator * r.numerator <= r.varianceX * r.varianceY
  {
    if |ps| > 0 {
      var n, xs, ys := |ps|, Xs(ps), Ys(ps);
      var sx, sy := Sum(xs), Sum(ys);
      var dx, dy := Deviations(xs, n, sx), Deviations(ys, n, sy);
      ExactVarianceNonNegative(xs);
      ExactVarianceNonNegative(ys);
      DotDeviations(xs, ys, n, sx, sy);
      DotDeviations(xs, xs, n, sx, sx);
      DotDeviations(ys, ys, n, sy, sy);
      CauchySchwarz(dx, dy);
      var num, vx, vy := n * Dot(xs, ys) - sx * sy, ExactVariance(xs), ExactVariance(ys);
      CrossDeviationIdentity(n, Dot(xs, ys), sx, sy);
      ScaledVarianceIdentity(n, sx, SumSquares(xs));
      ScaledVarianceIdentity(n, sy, SumSquares(ys));
      assert Dot(dx, dy) == n * num;
      assert Dot(dx, dx) == n * vx && Dot(dy, dy) == n * vy;
      CancelSquareFactor(n, num, vx, vy);
    }
  }

  lemma CrossDeviationIdentity(n: int, p: int, sx: int, sy: int)
    ensures n * n * p - n * sy * sx - n * sx * sy + n * sx * sy == n * (n * p - sx * sy)
  {
  }

  lemma CancelSquareFactor(n: int, num: int, vx: int, vy: int)
    requires n > 0
    requires (n * num) * (n * num) <= (n * vx) * (n * vy)
    ensures num * num <= vx * vy
  {
    assert (n * num) * (n * num) == (n * n) * (num * num);
    assert (n * vx) * (n * vy) == (n * n) * (vx * vy);
  }

  /**
   * When both users rated every book alike and the ratings are not all equal,
   * the exact coefficient is `v / (sqrt(v) * sqrt(v))`, 1 in real arithmetic.
   */
  lemma ExactPearsonIdenticalRatings(ps: seq<RatingPair>)
    requires forall k :: 0 <= k < |ps| ==> ps[k].mine == ps[k].theirs
    requires !AllEqual(Xs(ps))
    ensures |ps| > 0
    ensures ExactPearsonOf(ps) == Ratio(ExactVariance(Xs(ps)), ExactVariance(Xs(ps)), ExactVariance(Xs(ps)))
  {
    assert Xs(ps) == Ys(ps);
    ExactVarianceZeroIff(Xs(ps));
  }

  /**
   * When the friend's ratings mirror the user's (`theirs == c - mine` for every
   * book) and the user's ratings are not all equal, the exact coefficient is `-v / (sqrt(v) * sqrt(v))`, -1 in real arithmetic.
   */
  lemma ExactPearsonMirroredRatings(ps: seq<RatingPair>, c: int)
    requires forall k :: 0 <= k < |ps| ==> ps[k].theirs == c - ps[k].mine
    requires !AllEqual(Xs(ps))
    ensures |ps| > 0
    ensures ExactPearsonOf(ps) == Ratio(-ExactVariance(Xs(ps)), ExactVariance(Xs(ps)), ExactVariance(Xs(ps)))
  {
    var n, xs, ys := |ps|, Xs(ps), Ys(ps);
    MirroredSums(xs, ys, c);
    MirroredIdentity(n, c, Sum(xs), SumSquares(xs));
    ExactVarianceZeroIff(xs);
  }

  /** The sums of a mirrored series `c - x`, in terms of the sums of `x`. */
  lemma MirroredSums(xs: seq<int>, ys: seq<int>, c: int)
    requires |xs| == |ys| && forall k :: 0 <= k < |xs| ==> ys[k] == c - xs[k]
    ensures Sum(ys) == |xs| * c - Sum(xs)
    ensures Dot(xs, ys) == c * Sum(xs) - SumSquares(xs)
    ensures SumSquares(ys) == SumSquares(xs) - 2 * c * Sum(xs) + |xs| * c * c
  {
    assert ys == Deviations(xs, -1, -c);
    MirroredSum(xs, c);
    MirroredDot(xs, c);
    MirroredSquares(xs, c);
  }

  lemma MirroredSum(xs: seq<int>, c: int)
    ensures Sum(Deviations(xs, -1, -c)) == |xs| * c - Sum(xs)
  {
    SumDeviations(xs, -1, -c);
    MirroredArithmetic(|xs|, c, Sum(xs), SumSquares(xs));
  }

  lemma MirroredDot(xs: seq<int>, c: int)
    ensures Dot(xs, Deviations(xs, -1, -c)) == c * Sum(xs) - SumSquares(xs)
  {
    DotWithDeviations(xs, xs, -1, -c);
    MirroredArithmetic(|xs|, c, Sum(xs), SumSquares(xs));
  }

  lemma MirroredSquares(xs: seq<int>, c: int)
    ensures SumSquares(Deviations(xs, -1, -c)) == SumSquares(xs) - 2 * c * Sum(xs) + |xs| * c * c
  {
    DotDeviations(xs, xs, -1, -c, -c);
    MirroredArithmetic(|xs|, c, Sum(xs), SumSquares(xs));
  }

  lemma MirroredArithmetic(n: int, c: int, s: int, q: int)
    ensures -1 * s - n * -c == n * c - s
    ensures -1 * q - -c * s == c * s - q
    ensures -1 * -1 * q - -1 * -c * s - -1 * -c * s + n * -c * -c == q - 2 * c * s + n * c * c
  {
  }

  lemma MirroredIdentity(n: int, c: int, sx: int, q: int)
    ensures n * (q - 2 * c * sx + n * c * c) - (n * c - sx) * (n * c - sx) == n * q - sx * sx
    ensures n * (c * sx - q) - sx * (n * c - sx) == -(n * q - sx * sx)
  {
  }

  /** Products against a scaled deviation series. */
  lemma {:induction false} DotWithDeviations(a: seq<int>, b: seq<int>, m: int, c: int)
    requires |a| == |b|
    ensures Dot(a, Deviations(b, m, c)) == m * Dot(a, b) - c * Sum(a)
  {
    if |a| > 0 {
      var k := |a| - 1;
      var d := Deviations(b, m, c);
      DotWithDeviations(a[..k], b[..k], m, c);
      PrefixDeviations(b, m, c, k);
      assert Dot(a, d) == Dot(a[..k], d[..k]) + a[k] * d[k];
      WithDeviationStep(m, c, a[k], b[k], Dot(a[..k], b[..k]), Sum(a[..k]));
    }
  }

  lemma WithDeviationStep(m: int, c: int, x: int, y: int, p: int, sa: int)
    ensures (m * p - c * sa) + x * (m * y - c) == m * (p + x * y) - c * (sa + x)
  {
  }

  /**
   * Floor division turns a perfect negative correlation into none:
   * `[(1,2),(2,1)]` gives 0 / (sqrt(1) * sqrt(1)) = 0, where the exact
   * coefficient is -1 / (sqrt(1) * sqrt(1)) = -1.
   */
  lemma FloorDivisionHidesNegativeCorrelation()
    ensures PearsonOf([RatingPair(1, 2), RatingPair(2, 1)]) == Ratio(0, 1, 1)
    ensures ExactPearsonOf([RatingPair(1, 2), RatingPair(2, 1)]) == Ratio(-1, 1, 1)
  {
    var ps := [RatingPair(1, 2), RatingPair(2, 1)];
    var xs, ys := Xs(ps), Ys(ps);
    assert xs == [1, 2] && ys == [2, 1];
    assert [1, 2][..1] == [1] && [2, 1][..1] == [2] && [1][..0] == [] && [2][..0] == [];
    assert Sum([1]) == 1 && Sum([2]) == 2 && Sum(xs) == 3 && Sum(ys) == 3;
    assert Dot([1], [1]) == 1 && Dot([2], [2]) == 4 && Dot([1], [2]) == 2;
    assert SumSquares(xs) == 5 && SumSquares(ys) == 5 && Dot(xs, ys) == 4;
  }

  /**
   * Floor division pushes a perfect positive correlation outside [-1, 1]:
   * `[(1,2),(1,2),(2,4)]` gives 2 / (sqrt(1) * sqrt(3)), whose square 4/3
   * exceeds 1, where the exact coefficient is 4 / (sqrt(2) * sqrt(8)), 1 in real arithmetic.
   */
  lemma FloorDivisionExceedsOne()
    ensures PearsonOf([RatingPair(1, 2), RatingPair(1, 2), RatingPair(2, 4)]) == Ratio(2, 1, 3)
    ensures var r := PearsonOf([RatingPair(1, 2), RatingPair(1, 2), RatingPair(2, 4)]);
            r.Ratio? && r.numerator * r.numerator > r.varianceX * r.varianceY
    ensures ExactPearsonOf([RatingPair(1, 2), RatingPair(1, 2), RatingPair(2, 4)]) == Ratio(4, 2, 8)
  {
    var ps := [RatingPair(1, 2), RatingPair(1, 2), RatingPair(2, 4)];
    var xs, ys := Xs(ps), Ys(ps);
    assert xs == [1, 1, 2] && ys == [2, 2, 4];
    assert [1, 1, 2][..2] == [1, 1] && [1, 1][..1] == [1] && [1][..0] == [];
    assert [2, 2, 4][..2] == [2, 2] && [2, 2][..1] == [2] && [2][..0] == [];
    assert Sum([1]) == 1 && Sum([1, 1]) == 2 && Sum(xs) == 4;
    assert Sum([2]) == 2 && Sum([2, 2]) == 4 && Sum(ys) == 8;
    assert Dot([1], [1]) == 1 && Dot([1, 1], [1, 1]) == 2 && SumSquares(xs) == 6;
    assert Dot([2], [2]) == 4 && Dot([2, 2], [2, 2]) == 8 && SumSquares(ys) == 24;
    assert Dot([1], [2]) == 2 && Dot([1, 1], [2, 2]) == 4 && Dot(xs, ys) == 12;
  }
}
