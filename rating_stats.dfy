/**
 * Integer sums over rating sequences and the algebra behind the variance and
 * covariance terms of the Pearson coefficient.
 *
 * All sums are accumulated left to right (recursion on the prefix), the order in
 * which the rating loop visits its input.
 */
module RatingStats {

  /** Sum of the elements of `s`. */
  function Sum(s: seq<int>): int
  {
    if |s| == 0 then 0 else Sum(s[..|s| - 1]) + s[|s| - 1]
  }

  /** Sum of the products `a[i] * b[i]`. */
  function Dot(a: seq<int>, b: seq<int>): int
    requires |a| == |b|
  {
    if |a| == 0 then 0 else Dot(a[..|a| - 1], b[..|b| - 1]) + a[|a| - 1] * b[|b| - 1]
  }

  /** Sum of the squares of the elements of `s`. */
  function SumSquares(s: seq<int>): int
  {
    Dot(s, s)
  }

  /** Every element of `s` is the same value (a series with no variance). */
  predicate AllEqual(s: seq<int>)
  {
    forall i, j :: 0 <= i < |s| && 0 <= j < |s| ==> s[i] == s[j]
  }

  /** The scaled deviations `m * s[i] - c`. */
  function Deviations(s: seq<int>, m: int, c: int): seq<int>
  {
    seq(|s|, i requires 0 <= i < |s| => m * s[i] - c)
  }

  /**
   * The variance term as written with Python 2 integers:
   * `sum_x2 - pow(sum_x, 2) / n`, where `/` is floor division (n > 0, so
   * Dafny's Euclidean division is the same operation).
   */
  function VarianceTerm(s: seq<int>): int
    requires |s| > 0
  {
    SumSquares(s) - (Sum(s) * Sum(s)) / |s|
  }

  /**
   * `n` times the sum of squared deviations from the mean, in exact integers:
   * `n * sum_x2 - sum_x * sum_x`.
   */
  function ExactVariance(s: seq<int>): int
  {
    |s| * SumSquares(s) - Sum(s) * Sum(s)
  }

  /** Extending a prefix by one element adds that element to each sum. */
  lemma PrefixSums(a: seq<int>, b: seq<int>, k: nat)
    requires |a| == |b| && k < |a|
    ensures Sum(a[..k + 1]) == Sum(a[..k]) + a[k]
    ensures Dot(a[..k + 1], b[..k + 1]) == Dot(a[..k], b[..k]) + a[k] * b[k]
  {
    assert a[..k + 1][..k] == a[..k] && b[..k + 1][..k] == b[..k];
  }

  lemma PrefixDeviations(s: seq<int>, m: int, c: int, k: nat)
    requires k <= |s|
    ensures Deviations(s, m, c)[..k] == Deviations(s[..k], m, c)
  {
  }

  /** The sum of scaled deviations. */
  lemma {:induction false} SumDeviations(s: seq<int>, m: int, c: int)
    ensures Sum(Deviations(s, m, c)) == m * Sum(s) - |s| * c
  {
    if |s| > 0 {
      var k := |s| - 1;
      SumDeviations(s[..k], m, c);
      PrefixDeviations(s, m, c, k);
      calc {
        Sum(Deviations(s, m, c));
        Sum(Deviations(s[..k], m, c)) + (m * s[k] - c);
        m * Sum(s[..k]) - k * c + m * s[k] - c;
        { assert m * Sum(s[..k]) + m * s[k] == m * (Sum(s[..k]) + s[k]); }
        m * Sum(s) - |s| * c;
      }
    }
  }

  /** The sum of products of two scaled deviation series, expanded. */
  lemma {:induction false} DotDeviations(a: seq<int>, b: seq<int>, m: int, c: int, d: int)
    requires |a| == |b|
    ensures Dot(Deviations(a, m, c), Deviations(b, m, d))
            == m * m * Dot(a, b) - m * d * Sum(a) - m * c * Sum(b) + |a| * c * d
  {
    if |a| > 0 {
      var k := |a| - 1;
      DotDeviations(a[..k], b[..k], m, c, d);
      PrefixDeviations(a, m, c, k);
      PrefixDeviations(b, m, d, k);
      DeviationProductStep(m, c, d, a[k], b[k], Dot(a[..k], b[..k]), Sum(a[..k]), Sum(b[..k]), k);
    }
  }

  lemma DeviationProductStep(m: int, c: int, d: int, x: int, y: int, p: int, sa: int, sb: int, k: int)
    ensures (m * m * p - m * d * sa - m * c * sb + k * c * d) + (m * x - c) * (m * y - d)
            == m * m * (p + x * y) - m * d * (sa + x) - m * c * (sb + y) + (k + 1) * c * d
  {
  }

  /** A sum of squares is never negative. */
  lemma {:induction false} DotSelfNonNegative(a: seq<int>)
    ensures Dot(a, a) >= 0
  {
    if |a| > 0 {
      DotSelfNonNegative(a[..|a| - 1]);
    }
  }

  /** A sum of squares is zero only when every element is zero. */
  lemma {:induction false} DotSelfZero(a: seq<int>)
    requires Dot(a, a) == 0
    ensures forall i :: 0 <= i < |a| ==> a[i] == 0
  {
    if |a| > 0 {
      var k := |a| - 1;
      DotSelfNonNegative(a[..k]);
      assert a[k] * a[k] >= 0;
      assert Dot(a[..k], a[..k]) == 0 && a[k] * a[k] == 0;
      DotSelfZero(a[..k]);
      forall i | 0 <= i < |a| ensures a[i] == 0 {
        if i < k {
          assert a[..k][i] == a[i];
        }
      }
    }
  }

  /** A sum of a constant series. */
  lemma {:induction false} SumAllEqual(s: seq<int>, v: int)
    requires forall i :: 0 <= i < |s| ==> s[i] == v
    ensures Sum(s) == |s| * v
  {
    if |s| > 0 {
      SumAllEqual(s[..|s| - 1], v);
    }
  }

  /**
   * The squared deviations of `s` from its mean, scaled by `n`, add up to
   * `n * ExactVariance(s)`.
   */
  lemma ExactVarianceAsDeviations(s: seq<int>)
    ensures Dot(Deviations(s, |s|, Sum(s)), Deviations(s, |s|, Sum(s))) == |s| * ExactVariance(s)
  {
    var n, p, q := |s|, Sum(s), SumSquares(s);
    DotDeviations(s, s, n, p, p);
    ScaledVarianceIdentity(n, p, q);
  }

  lemma ScaledVarianceIdentity(n: int, p: int, q: int)
    ensures n * n * q - n * p * p - n * p * p + n * p * p == n * (n * q - p * p)
  {
  }

  /** Cauchy-Schwarz for one series: `n * sum_x2 >= sum_x * sum_x`. */
  lemma ExactVarianceNonNegative(s: seq<int>)
    ensures ExactVariance(s) >= 0
  {
    if |s| > 0 {
      ExactVarianceAsDeviations(s);
      DotSelfNonNegative(Deviations(s, |s|, Sum(s)));
      assert |s| * ExactVariance(s) >= 0;
    }
  }

  /** The exact variance vanishes exactly for a constant series. */
  lemma ExactVarianceZeroIff(s: seq<int>)
    ensures ExactVariance(s) == 0 <==> AllEqual(s)
  {
    var n, p := |s|, Sum(s);
    if n > 0 {
      var dev := Deviations(s, n, p);
      ExactVarianceAsDeviations(s);
      if ExactVariance(s) == 0 {
        DotSelfZero(dev);
        forall i, j | 0 <= i < n && 0 <= j < n ensures s[i] == s[j] {
          assert dev[i] == 0 && dev[j] == 0;
          assert n * s[i] == n * s[j];
        }
      }
      if AllEqual(s) {
        SumAllEqual(s, s[0]);
        assert forall i :: 0 <= i < n ==> dev[i] == 0;
        DotZeroSeries(dev);
        assert n * ExactVariance(s) == 0;
      }
    }
  }

  lemma {:induction false} DotZeroSeries(a: seq<int>)
    requires forall i :: 0 <= i < |a| ==> a[i] == 0
    ensures Dot(a, a) == 0
  {
    if |a| > 0 {
      DotZeroSeries(a[..|a| - 1]);
    }
  }

  /**
   * The floor-divided variance term, scaled by `n`, is the exact variance plus
   * the remainder that floor division dropped.
   */
  lemma VarianceTermScaled(s: seq<int>)
    requires |s| > 0
    ensures |s| * VarianceTerm(s) == ExactVariance(s) + (Sum(s) * Sum(s)) % |s|
  {
    ScaledFloorDifference(|s|, SumSquares(s), Sum(s) * Sum(s));
  }

  /** `n * (d - p / n)` is `n * d - p` plus the remainder floor division dropped. */
  lemma ScaledFloorDifference(n: int, d: int, p: int)
    requires n > 0
    ensures n * (d - p / n) == (n * d - p) + p % n
  {
    assert p == n * (p / n) + p % n;
  }

  /** `sqrt` is never given a negative argument. */
  lemma VarianceTermNonNegative(s: seq<int>)
    requires |s| > 0
    ensures VarianceTerm(s) >= 0
  {
    VarianceTermScaled(s);
    ExactVarianceNonNegative(s);
  }

  /** The variance term is zero exactly when every value in the series is equal. */
  lemma VarianceTermZeroIff(s: seq<int>)
    requires |s| > 0
    ensures VarianceTerm(s) == 0 <==> AllEqual(s)
  {
    VarianceTermScaled(s);
    ExactVarianceNonNegative(s);
    ExactVarianceZeroIff(s);
  }

  /**
   * For every u, v: `u^2 * Dot(b, b) - 2uv * Dot(a, b) + v^2 * Dot(a, a)` is the
   * sum of the squares `(u * b[i] - v * a[i])^2`, hence not negative.
   */
  lemma {:induction false} QuadraticFormNonNegative(a: seq<int>, b: seq<int>, u: int, v: int)
    requires |a| == |b|
    ensures u * u * Dot(b, b) - 2 * u * v * Dot(a, b) + v * v * Dot(a, a) >= 0
  {
    if |a| > 0 {
      var k := |a| - 1;
      QuadraticFormNonNegative(a[..k], b[..k], u, v);
      QuadraticStep(u, v, a[k], b[k], Dot(a[..k], a[..k]), Dot(b[..k], b[..k]), Dot(a[..k], b[..k]));
    }
  }

  lemma QuadraticStep(u: int, v: int, x: int, y: int, A: int, B: int, C: int)
    requires u * u * B - 2 * u * v * C + v * v * A >= 0
    ensures u * u * (B + y * y) - 2 * u * v * (C + x * y) + v * v * (A + x * x) >= 0
  {
    var t := u * y - v * x;
    assert t * t >= 0;
    assert t * t == u * u * (y * y) - 2 * u * v * (x * y) + v * v * (x * x);
  }

  /** The Cauchy-Schwarz inequality for two integer series. */
  lemma {:induction false} CauchySchwarz(a: seq<int>, b: seq<int>)
    requires |a| == |b|
    ensures Dot(a, b) * Dot(a, b) <= Dot(a, a) * Dot(b, b)
  {
    if |a| > 0 {
      var k := |a| - 1;
      var a', b' := a[..k], b[..k];
      CauchySchwarz(a', b');
      QuadraticFormNonNegative(a', b', a[k], b[k]);
      CauchySchwarzStep(a[k], b[k], Dot(a', a'), Dot(b', b'), Dot(a', b'));
    }
  }

  lemma CauchySchwarzStep(x: int, y: int, A: int, B: int, C: int)
    requires C * C <= A * B
    requires x * x * B - 2 * x * y * C + y * y * A >= 0
    ensures (C + x * y) * (C + x * y) <= (A + x * x) * (B + y * y)
  {
    calc {
      (A + x * x) * (B + y * y) - (C + x * y) * (C + x * y);
      (A * B - C * C) + (x * x * B - 2 * x * y * C + y * y * A) + (x * x * (y * y) - (x * y) * (x * y));
    }
  }
}
