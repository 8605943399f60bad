/** The summary that `Quiz.finish` computes from the questions and the
    recorded answers before it asks the estimator for a result. */
module Quiz {
  import opened WordBank
  import opened Estimator
  import opened Shuffling
  import opened Sampler

  /** `answers[i] === q.correctIndex`: an unanswered question (absent key,
      `undefined`) is never correct. */
  predicate AnsweredCorrectly(qs: seq<Question>, answers: map<int, int>, i: int)
    requires 0 <= i < |qs|
  {
    i in answers && answers[i] == qs[i].correctIndex
  }

  /** The number of the first `n` questions answered correctly. */
  function CorrectCount(qs: seq<Question>, answers: map<int, int>, n: nat): (c: nat)
    requires n <= |qs|
    ensures c <= n
  {
    if n == 0 then 0
    else CorrectCount(qs, answers, n - 1) + (if AnsweredCorrectly(qs, answers, n - 1) then 1 else 0)
  }

  /** The sum of the difficulties of the first `n` questions. */
  function DifficultySum(qs: seq<Question>, n: nat): int
    requires n <= |qs|
  {
    if n == 0 then 0 else DifficultySum(qs, n - 1) + qs[n - 1].difficulty
  }

  /** `sumD / Math.max(1, total)`. */
  function AverageDifficulty(qs: seq<Question>): real
  {
    DifficultySum(qs, |qs|) as real / Max(1.0, |qs| as real)
  }

  /** What `finish` posts and hands on: the counts, the average difficulty,
      the estimate, and the accuracy shown on the result screen, which is
      `Math.round((correct/total)*100)` and so NaN (`None`) for no questions. */
  datatype Summary = Summary(
    total: int,
    correct: int,
    avgDifficulty: real,
    estimate: Estimate,
    accuracy: Option<int>)

  /** `finish`: one pass over the questions counting correct answers and
      summing difficulties, then the average over at least one question and
      the estimate for the user's age. */
  method Finish(questions: seq<Question>, answers: map<int, int>, age: Option<int>, sqrt: real -> real)
    returns (s: Summary)
    requires IsSqrt(sqrt)
    ensures s.total == |questions|
    ensures s.correct == CorrectCount(questions, answers, |questions|)
    ensures s.avgDifficulty == AverageDifficulty(questions)
    ensures s.estimate == EstimateVocabulary(s.total, s.correct, s.avgDifficulty, age, sqrt)
    ensures s.accuracy.None? <==> |questions| == 0
    ensures s.accuracy.Some? ==> s.accuracy.value == s.estimate.accuracy
  {
    var total := |questions|;
    var correct := 0;
    var sumD := 0;
    for i := 0 to |questions|
      invariant correct == CorrectCount(questions, answers, i)
      invariant sumD == DifficultySum(questions, i)
    {
      if i in answers && answers[i] == questions[i].correctIndex {
        correct := correct + 1;
      }
      sumD := sumD + questions[i].difficulty;
    }
    var avgDifficulty := sumD as real / Max(1.0, total as real);
    var est := EstimateVocabulary(total, correct, avgDifficulty, age, sqrt);
    var accuracy: Option<int> := None;
    if total > 0 {
      accuracy := Some(Round(correct as real / total as real * 100.0));
    }
    s := Summary(total, correct, avgDifficulty, est, accuracy);
  }

  /** Every question answered correctly exactly when the count reaches the
      number of questions. */
  lemma {:induction false} AllCorrectIff(qs: seq<Question>, answers: map<int, int>, n: nat)
    requires n <= |qs|
    ensures CorrectCount(qs, answers, n) == n
        <==> forall i :: 0 <= i < n ==> AnsweredCorrectly(qs, answers, i)
  {
    if n > 0 {
      AllCorrectIff(qs, answers, n - 1);
    }
  }

  /** No question answered correctly exactly when the count is zero. */
  lemma {:induction false} NoneCorrectIff(qs: seq<Question>, answers: map<int, int>, n: nat)
    requires n <= |qs|
    ensures CorrectCount(qs, answers, n) == 0
        <==> forall i :: 0 <= i < n ==> !AnsweredCorrectly(qs, answers, i)
  {
    if n > 0 {
      NoneCorrectIff(qs, answers, n - 1);
    }
  }

  /** Answers recorded for indices outside the quiz do not count. */
  lemma {:induction false} CountIgnoresOtherKeys(qs: seq<Question>, answers: map<int, int>, k: int, v: int, n: nat)
    requires n <= |qs|
    requires k < 0 || k >= |qs|
    ensures CorrectCount(qs, answers[k := v], n) == CorrectCount(qs, answers, n)
  {
    if n > 0 {
      CountIgnoresOtherKeys(qs, answers, k, v, n - 1);
    }
  }

  /** With every difficulty in the bank's range 1..5, the sum stays in
      n..5n. */
  lemma {:induction false} DifficultySumBounds(qs: seq<Question>, n: nat)
    requires n <= |qs|
    requires forall i :: 0 <= i < |qs| ==> 1 <= qs[i].difficulty <= 5
    ensures n <= DifficultySum(qs, n) <= 5 * n
  {
    if n > 0 {
      DifficultySumBounds(qs, n - 1);
    }
  }

  /** A quotient of a sum bounded by n..5n over a positive n lies in 1..5. */
  lemma QuotientBounds(sum: real, n: real)
    requires 0.0 < n && n <= sum <= 5.0 * n
    ensures 1.0 <= sum / n <= 5.0
  {
    var q := sum / n;
    assert q * n == sum;
    if q < 1.0 {
      MulStrict(n, q, 1.0);
    }
    if q > 5.0 {
      MulStrict(n, 5.0, q);
    }
  }

  /** The average difficulty of a non-empty quiz drawn from tiers 1..5 is
      itself between 1 and 5; an empty quiz averages 0. */
  lemma AverageInRange(qs: seq<Question>)
    requires forall i :: 0 <= i < |qs| ==> 1 <= qs[i].difficulty <= 5
    ensures |qs| == 0 ==> AverageDifficulty(qs) == 0.0
    ensures |qs| > 0 ==> 1.0 <= AverageDifficulty(qs) <= 5.0
  {
    DifficultySumBounds(qs, |qs|);
    if |qs| > 0 {
      QuotientBounds(DifficultySum(qs, |qs|) as real, |qs| as real);
    }
  }

  /** A quiz whose questions all come from the pool built over a bank keyed
      1 to 5, as `Bank()` is, averages a difficulty between 1 and 5. */
  lemma SampledAverageInRange(bank: seq<Tier>, qs: seq<Question>, rand: Random)
    requires forall t :: t in bank ==> 1 <= t.difficulty <= 5
    requires forall q :: q in qs ==> q in Pool(bank, rand)
    requires |qs| > 0
    ensures 1.0 <= AverageDifficulty(qs) <= 5.0
  {
    var pool := Pool(bank, rand);
    FlatDifficulties(bank, 1, 5);
    forall i | 0 <= i < |qs|
      ensures 1 <= qs[i].difficulty <= 5
    {
      assert qs[i] in qs;
      assert qs[i] in pool;
      var k :| 0 <= k < |pool| && pool[k] == qs[i];
      assert IsQuestionFor(pool[k], Flat(bank)[k]);
    }
    AverageInRange(qs);
  }
}
