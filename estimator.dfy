/** `ageBaseline`, `roundToNearest` and `estimateVocabulary`: the vocabulary
    estimate computed from the quiz summary, over exact reals. */
module Estimator {

  datatype Option<T> = None | Some(value: T)

  /** The prior for an age band: a mean vocabulary size and an interval width. */
  datatype Baseline = Baseline(mean: int, width: int)

  /** The estimator's result: the rounded interval, the rounded mean and the
      accuracy as a whole percentage. */
  datatype Estimate = Estimate(lo: int, hi: int, mean: int, accuracy: int)

  /** `Math.sqrt` is a foreign call; the estimator receives it as a parameter
      that returns the non-negative square root of every non-negative real. */
  ghost predicate IsSqrt(sqrt: real -> real)
  {
    forall x :: 0.0 <= x ==> 0.0 <= sqrt(x) && sqrt(x) * sqrt(x) == x
  }

  function Max(a: real, b: real): real
  {
    if a >= b then a else b
  }

  function Min(a: real, b: real): real
  {
    if a <= b then a else b
  }

  /** `Math.round`: the nearest integer, halves rounded up. */
  function Round(x: real): (r: int)
    ensures x - 0.5 < r as real <= x + 0.5
  {
    (x + 0.5).Floor
  }

  lemma RoundMonotone(x: real, y: real)
    requires x <= y
    ensures Round(x) <= Round(y)
  {
  }

  /** An integer is its own rounding. */
  lemma RoundOfInt(n: int)
    ensures Round(n as real) == n
  {
  }

  /** `roundToNearest(n, 100)`: the multiple of 100 nearest to `n`. Both
      callers pass the default step of 100. */
  function RoundToNearest(n: real): (r: int)
    ensures r % 100 == 0
    ensures n - 50.0 < r as real <= n + 50.0
  {
    Round(n / 100.0) * 100
  }

  /** `ageBaseline(age)`: an absent age or age 0 (both falsy) gets the general
      prior; otherwise the first band whose upper bound the age does not exceed. */
  function AgeBaseline(age: Option<int>): (b: Baseline)
    ensures 2000 <= b.width <= b.mean <= 27000
    ensures b.mean % 1000 == 0 && b.width % 1000 == 0
  {
    if age.None? || age.value == 0 then Baseline(20000, 12000)
    else if age.value <= 7 then Baseline(2000, 2000)
    else if age.value <= 12 then Baseline(8000, 7000)
    else if age.value <= 17 then Baseline(15000, 12000)
    else if age.value <= 25 then Baseline(25000, 12000)
    else if age.value <= 40 then Baseline(27000, 12000)
    else Baseline(26000, 12000)
  }

  /** `correct / total`, or 0 when no question was asked. */
  function Accuracy(total: int, correct: int): (a: real)
    ensures total <= 0 ==> a == 0.0
    ensures 0 <= correct <= total ==> 0.0 <= a <= 1.0
  {
    if total > 0 then correct as real / total as real else 0.0
  }

  /** 0.9 at average difficulty 3, 0.05 more or less per level above or below. */
  function DifficultyFactor(avgDifficulty: real): real
  {
    0.9 + 0.05 * (avgDifficulty - 3.0)
  }

  /** The accuracy scaled by the difficulty factor, clamped to [0, 1]. */
  function Weighted(accuracy: real, avgDifficulty: real): (w: real)
    ensures 0.0 <= w <= 1.0
    ensures 0.0 <= accuracy * DifficultyFactor(avgDifficulty) <= 1.0
            ==> w == accuracy * DifficultyFactor(avgDifficulty)
  {
    Min(1.0, Max(0.0, accuracy * DifficultyFactor(avgDifficulty)))
  }

  /** The interval width: 0.9 of the baseline width up to 20 questions, then
      divided by the square root of (questions / 20). */
  function Width(baseWidth: int, total: int, sqrt: real -> real): (w: real)
    requires IsSqrt(sqrt)
    ensures baseWidth >= 0 ==> w >= 0.0
    ensures total <= 20 ==> w == 0.9 * baseWidth as real
  {
    var x := Max(1.0, total as real / 20.0);
    var s := sqrt(x);
    assert s * s == x && x >= 1.0;
    assert s > 0.0;
    SqrtOfOne(sqrt);
    baseWidth as real * (0.9 / s)
  }

  /** The unrounded mean: the baseline mean scaled by 0.7 + 0.6 * weighted. */
  function RawMean(baseMean: int, weighted: real): real
  {
    baseMean as real * (0.7 + 0.6 * weighted)
  }

  /** Up to 40 the bands never lower the prior as the age grows; past 40 the
      mean drops back to 26000. */
  lemma BaselineGrowsUntilForty(a1: int, a2: int)
    requires a1 != 0 && a2 != 0 && a1 <= a2 <= 40
    ensures AgeBaseline(Some(a1)).mean <= AgeBaseline(Some(a2)).mean
    ensures AgeBaseline(Some(a1)).width <= AgeBaseline(Some(a2)).width
    ensures AgeBaseline(Some(41)).mean < AgeBaseline(Some(40)).mean
  {
  }

  /** `estimateVocabulary(total, correct, avgDifficulty, age)`. */
  function EstimateVocabulary(total: int, correct: int, avgDifficulty: real, age: Option<int>, sqrt: real -> real)
    : (e: Estimate)
    requires IsSqrt(sqrt)
    ensures e.lo >= 300 && e.lo % 100 == 0 && e.hi % 100 == 0
    ensures e.lo <= e.hi
    ensures 7 * AgeBaseline(age).mean <= 10 * e.mean <= 13 * AgeBaseline(age).mean
    ensures total <= 0 ==> e.accuracy == 0
    ensures 0 <= correct <= total ==> 0 <= e.accuracy <= 100
  {
    var b := AgeBaseline(age);
    var accuracy := Accuracy(total, correct);
    var width := Width(b.width, total, sqrt);
    var mean := RawMean(b.mean, Weighted(accuracy, avgDifficulty));
    var lo := RoundToNearest(Max(300.0, mean - width / 2.0));
    var hi := RoundToNearest(mean + width / 2.0);
    EstimateBounds(b, mean, width, accuracy, total, correct);
    Estimate(lo, hi, Round(mean), Round(accuracy * 100.0))
  }

  lemma EstimateBounds(b: Baseline, mean: real, width: real, accuracy: real, total: int, correct: int)
    requires 2000 <= b.width <= b.mean && b.mean % 1000 == 0
    requires 0.7 * b.mean as real <= mean <= 1.3 * b.mean as real
    requires width >= 0.0
    requires accuracy == Accuracy(total, correct)
    ensures RoundToNearest(Max(300.0, mean - width / 2.0)) >= 300
    ensures RoundToNearest(Max(300.0, mean - width / 2.0))
         <= RoundToNearest(mean + width / 2.0)
    ensures 7 * b.mean <= 10 * Round(mean) <= 13 * b.mean
    ensures 0 <= correct <= total ==> 0 <= Round(accuracy * 100.0) <= 100
  {
    var lo := Max(300.0, mean - width / 2.0);
    RoundMonotone(300.0 / 100.0, lo / 100.0);
    RoundMonotone(lo / 100.0, (mean + width / 2.0) / 100.0);
    var k := b.mean / 10;
    assert 0.7 * b.mean as real == (7 * k) as real;
    assert 1.3 * b.mean as real == (13 * k) as real;
    RoundMonotone((7 * k) as real, mean);
    RoundMonotone(mean, (13 * k) as real);
    RoundOfInt(7 * k);
    RoundOfInt(13 * k);
    if 0 <= correct <= total {
      RoundMonotone(0.0, accuracy * 100.0);
      RoundMonotone(accuracy * 100.0, 100.0);
    }
  }

  lemma MulMonotone(a: real, b: real, c: real)
    requires 0.0 <= a && b <= c
    ensures a * b <= a * c
  {
  }

  lemma SqrtOfOne(sqrt: real -> real)
    requires IsSqrt(sqrt)
    ensures sqrt(1.0) == 1.0
  {
    var s := sqrt(1.0);
    assert s >= 0.0 && s * s == 1.0;
    if s < 1.0 {
      MulMonotone(s, s, 1.0);
    } else if s > 1.0 {
      MulMonotone(s, 1.0, s);
    }

  }

  lemma MulStrict(a: real, b: real, c: real)
    requires 0.0 < a && b < c
    ensures a * b < a * c
  {
  }

  /** The square root is strictly increasing. */
  lemma SqrtStrictlyIncreasing(sqrt: real -> real, x: real, y: real)
    requires IsSqrt(sqrt)
    requires 0.0 <= x < y
    ensures sqrt(x) < sqrt(y)
  {
    var sx, sy := sqrt(x), sqrt(y);
    assert sx * sx == x && sy * sy == y && sx >= 0.0 && sy >= 0.0;
    if sx >= sy {
      MulMonotone(sx, sy, sx);
      MulMonotone(sy, sy, sx);
      assert sy * sx == sx * sy;
    }
  }

  /** A positive numerator over a larger positive denominator is smaller. */
  lemma DivDecreasing(a: real, s1: real, s2: real)
    requires 0.0 < a && 0.0 < s1 < s2
    ensures a / s2 < a / s1
  {
    var q1, q2 := a / s1, a / s2;
    assert q1 * s1 == a && q2 * s2 == a;
    assert q2 > 0.0;
    if q2 >= q1 {
      MulStrict(q2, s1, s2);
      MulMonotone(s1, q1, q2);
      assert false;
    }
  }

  /** More questions beyond 20 give a strictly narrower interval. */
  lemma WidthNarrows(baseWidth: int, t1: int, t2: int, sqrt: real -> real)
    requires IsSqrt(sqrt)
    requires baseWidth > 0 && t1 < t2 && t2 > 20
    ensures Width(baseWidth, t2, sqrt) < Width(baseWidth, t1, sqrt)
  {
    var x1 := Max(1.0, t1 as real / 20.0);
    var x2 := Max(1.0, t2 as real / 20.0);
    SqrtStrictlyIncreasing(sqrt, x1, x2);
    SqrtOfOne(sqrt);
    SqrtStrictlyIncreasing(sqrt, 1.0, x2);
    var s1, s2 := sqrt(x1), sqrt(x2);
    assert s1 * s1 == x1 && s1 >= 0.0;
    assert s1 > 0.0;
    DivDecreasing(0.9, s1, s2);
    MulStrict(baseWidth as real, 0.9 / s2, 0.9 / s1);
  }

  /** Accuracy grows with the number of correct answers. */
  lemma AccuracyMonotone(total: int, c1: int, c2: int)
    requires total > 0 && c1 <= c2
    ensures Accuracy(total, c1) <= Accuracy(total, c2)
  {
    var a1, a2 := Accuracy(total, c1), Accuracy(total, c2);
    assert a1 * total as real == c1 as real && a2 * total as real == c2 as real;
    if a1 > a2 {
      MulStrict(total as real, a2, a1);
    }
  }

  /** A non-negative difficulty factor keeps the weighted score monotone in
      the accuracy. */
  lemma WeightedMonotone(a1: real, a2: real, avgDifficulty: real)
    requires a1 <= a2 && DifficultyFactor(avgDifficulty) >= 0.0
    ensures Weighted(a1, avgDifficulty) <= Weighted(a2, avgDifficulty)
  {
    var f := DifficultyFactor(avgDifficulty);
    MulMonotone(f, a1, a2);
    assert a1 * f <= a2 * f by { assert f * a1 == a1 * f && f * a2 == a2 * f; }
  }

  /** The raw mean grows with the weighted score. */
  lemma RawMeanMonotone(baseMean: int, w1: real, w2: real)
    requires baseMean >= 0 && w1 <= w2
    ensures RawMean(baseMean, w1) <= RawMean(baseMean, w2)
  {
    MulMonotone(baseMean as real, 0.7 + 0.6 * w1, 0.7 + 0.6 * w2);
  }

  /** The estimate's mean is the rounded raw mean. */
  lemma MeanOf(total: int, correct: int, avgDifficulty: real, age: Option<int>, sqrt: real -> real)
    requires IsSqrt(sqrt)
    ensures EstimateVocabulary(total, correct, avgDifficulty, age, sqrt).mean
         == Round(RawMean(AgeBaseline(age).mean, Weighted(Accuracy(total, correct), avgDifficulty)))
  {
  }

  /** With the difficulty factor non-negative, more correct answers never
      lower the estimated mean. */
  lemma MeanMonotone(total: int, c1: int, c2: int, avgDifficulty: real, age: Option<int>, sqrt: real -> real)
    requires IsSqrt(sqrt)
    requires total > 0 && c1 <= c2 && DifficultyFactor(avgDifficulty) >= 0.0
    ensures EstimateVocabulary(total, c1, avgDifficulty, age, sqrt).mean
         <= EstimateVocabulary(total, c2, avgDifficulty, age, sqrt).mean
  {
    var a1, a2 := Accuracy(total, c1), Accuracy(total, c2);
    AccuracyMonotone(total, c1, c2);
    WeightedMonotone(a1, a2, avgDifficulty);
    var bm := AgeBaseline(age).mean;
    var w1, w2 := Weighted(a1, avgDifficulty), Weighted(a2, avgDifficulty);
    RawMeanMonotone(bm, w1, w2);
    RoundMonotone(RawMean(bm, w1), RawMean(bm, w2));
    MeanOf(total, c1, avgDifficulty, age, sqrt);
    MeanOf(total, c2, avgDifficulty, age, sqrt);
  }

  /** The rounded interval is less than 100 words wider than the computed
      width; when the floor of 300 is not reached, it is also less than 100
      words narrower. */
  lemma IntervalTracksWidth(total: int, correct: int, avgDifficulty: real, age: Option<int>, sqrt: real -> real)
    requires IsSqrt(sqrt)
    ensures var e := EstimateVocabulary(total, correct, avgDifficulty, age, sqrt);
      var w := Width(AgeBaseline(age).width, total, sqrt);
      var m := RawMean(AgeBaseline(age).mean, Weighted(Accuracy(total, correct), avgDifficulty));
      && (e.hi - e.lo) as real < w + 100.0
      && (m - w / 2.0 >= 300.0 ==> (e.hi - e.lo) as real > w - 100.0)
  {
  }

  /** The worked example: 15 of 20 at average difficulty 3 without an age. */
  lemma EstimateExample(sqrt: real -> real)
    requires IsSqrt(sqrt)
    ensures EstimateVocabulary(20, 15, 3.0, None, sqrt) == Estimate(16700, 27500, 22100, 75)
  {
    assert Accuracy(20, 15) == 0.75;
    assert Weighted(0.75, 3.0) == 0.675;
    assert Width(12000, 20, sqrt) == 10800.0;
    assert RawMean(20000, 0.675) == 22100.0;
    RoundOfInt(22100);
    RoundOfInt(167);
    RoundOfInt(275);
    RoundOfInt(75);
  }

  /** Ten years old, 20 questions at difficulty 3: all correct gives a
      higher mean than none correct. */
  lemma PerfectBeatsZero(sqrt: real -> real)
    requires IsSqrt(sqrt)
    ensures EstimateVocabulary(20, 20, 3.0, Some(10), sqrt).mean
          > EstimateVocabulary(20, 0, 3.0, Some(10), sqrt).mean
  {
    assert Weighted(Accuracy(20, 20), 3.0) == 0.9;
    assert Weighted(Accuracy(20, 0), 3.0) == 0.0;
    RoundOfInt(9920);
    RoundOfInt(5600);
  }

  /** The width for 100 questions and a base width of 12000 is at most
      5400, since the square root of 5 is at least 2. */
  lemma WidthAtHundred(sqrt: real -> real)
    requires IsSqrt(sqrt)
    ensures Width(12000, 100, sqrt) <= 5400.0
  {
    var s := sqrt(5.0);
    assert s * s == 5.0 && s >= 0.0;
    if s < 2.0 {
      MulMonotone(s, s, 2.0);
      MulMonotone(2.0, s, 2.0);
    }
    var q := 0.9 / s;
    assert q * s == 0.9;
    if q > 0.45 {
      MulStrict(s, 0.45, q);
    }
  }

  /** Half right on 100 questions gives a narrower interval than half right
      on 20. */
  lemma MoreQuestionsNarrowExample(sqrt: real -> real)
    requires IsSqrt(sqrt)
    ensures var e20 := EstimateVocabulary(20, 10, 3.0, None, sqrt);
      var e100 := EstimateVocabulary(100, 50, 3.0, None, sqrt);
      e100.hi - e100.lo < e20.hi - e20.lo
  {
    IntervalTracksWidth(20, 10, 3.0, None, sqrt);
    IntervalTracksWidth(100, 50, 3.0, None, sqrt);
    assert Weighted(Accuracy(20, 10), 3.0) == 0.45;
    assert Weighted(Accuracy(100, 50), 3.0) == 0.45;
    WidthAtHundred(sqrt);
  }
}
