# Ordförrådet quiz engine in Dafny

Ordförrådet is a Swedish vocabulary quiz. The user picks a number of questions
and a difficulty mix. The app draws multiple-choice questions about distinct
headwords from a built-in bank of five difficulty tiers. When the quiz ends it
counts the correct answers, averages the difficulty, and turns the result into
an estimated vocabulary size: a mean and an interval, based on a prior for the
user's age band.

This project models that engine and proves properties about it:

- `shuffle.dfy` (module `Shuffling`):
  - the stable comparator sort that `Array.prototype.sort` performs;
  - `shuffle`, which decorates with random keys, sorts and undecorates;
  - `indexOf`.
- `bank.dfy` (module `WordBank`):
  - the question record;
  - the constant `WORD_BANK`;
  - the bank flattened in the order the sampler's nested loop visits it.
- `sampler.dfy` (module `Sampler`): `sampleUniqueQuestions`, written as
  imperative methods with loop invariants:
  - the pool construction;
  - the mix ordering;
  - the first pass;
  - the refill from a fresh shuffle;
  - the final `slice`.

  Both loops walk a sequence and keep the first question of each unseen
  headword until `num` are kept. That walk is the function `FirstUnique`,
  and each loop is proved to compute it. The lemmas about `FirstUnique` say
  which questions are kept, in which order, and which are skipped.
- `estimator.dfy` (module `Estimator`): `roundToNearest`, `ageBaseline` and
  `estimateVocabulary`, as pure functions over exact reals.
- `finish.dfy` (module `Quiz`): the aggregation in `Quiz.finish`, which
  counts correct answers, sums difficulties and averages them, then calls the
  estimator.

Randomness is a parameter. `rand(c, i)` is the value `Math.random()` returned
at the i-th draw of the c-th call of `shuffle`, so every property holds
whatever the draws are.

The pool's questions use shuffle calls `0 .. |pool| - 1`. The adaptive order
uses call `|pool|`, and the refill uses call `|pool| + 1`. The order in which
the source interleaves its draws is not modelled, since `shuffle` sees only
its own draws.

`Math.sqrt` is a parameter too. `IsSqrt` states that it returns the
non-negative square root of every non-negative real.

## Model

| member | source | states |
|---|---|---|
| `Shuffling.SortBy` | app/page.tsx:49 | the result is a permutation of the input and is in non-decreasing key order (the `.sort` with a numeric-difference comparator) |
| `Shuffling.InsertPermutes` | app/page.tsx:49 | inserting one element into a sequence adds exactly that element and loses nothing |
| `Shuffling.SortByIsStable` | app/page.tsx:67 | elements with equal keys keep their relative order, as the stable `Array.prototype.sort` keeps them |
| `Shuffling.WithKeyMembers` | app/page.tsx:67 | the group of elements with key v, used for stability, holds exactly the elements whose key is v |
| `Shuffling.Shuffle` | app/page.tsx:49 | whatever the random draws are, `shuffle` returns a permutation of its argument, with the same length |
| `Shuffling.IndexOf` | app/page.tsx:57 | `indexOf` is -1 exactly when the element is absent; otherwise it is an index holding the element, with no earlier occurrence |
| `Sampler.MakeQuestion` | app/page.tsx:56-57 | the question's options are the correct definition plus the three distractors in some order; `correctIndex` points at the correct definition; the prompt, word and difficulty come from the entry |
| `Sampler.Pool` | app/page.tsx:53-59 | the pool has one question per bank entry, and the k-th question is built for the k-th entry of the flattened bank |
| `Sampler.BuildPool` | app/page.tsx:53-59 | the nested loop over tiers and entries builds exactly `Pool(bank, rand)` |
| `Sampler.AddTier` | app/page.tsx:55-58 | the inner loop appends one question per entry of the tier, in order |
| `Sampler.FilterMembers` | app/page.tsx:62-65 | `pool.filter` keeps exactly the questions whose difficulty belongs to the mix (≤ 2 for 'lätt', ≥ 4 for 'svår') |
| `Sampler.FilterAppend` | app/page.tsx:62-65 | filtering a concatenation is the concatenation of the filtered parts, so `filter` never reorders |
| `Sampler.FilterSubseq` | app/page.tsx:62-65 | the filtered questions are a subsequence of the pool: the pool's questions, some left out, the rest in pool order |
| `Sampler.Ordered` | app/page.tsx:61-68 | for every mix, the walked sequence holds exactly the pool's questions of the mix; for 'lätt' and 'svår' it is a subsequence of the pool, in unshuffled pool order; the adaptive order is a permutation of the pool sorted by difficulty |
| `Sampler.Slice` | app/page.tsx:85 | `slice(0, n)` is a prefix of length min(n, length) for n ≥ 0, and drops -n elements from the end for n < 0 |
| `Sampler.PoolWords` | app/page.tsx:53-68 | the pool's headwords are the bank's headwords, and the mix's selection covers exactly the headwords of the mix's tiers |
| `Sampler.FirstUniqueSubseq` | app/page.tsx:71-76 | the walk that keeps the first question of each unseen headword (`FirstUnique`) returns a subsequence of what it walks, in walk order |
| `Sampler.FirstUniqueUnseen` | app/page.tsx:72-74 | the walk keeps only questions it walked whose headwords were not already seen |
| `Sampler.FirstUniqueFirst` | app/page.tsx:72-74 | each kept question is the first question of the walked sequence with its headword |
| `Sampler.FirstUniqueBefore` | app/page.tsx:71-76 | an unseen headword that is not kept occurs only after every kept question: the walk over the part before it keeps the same questions |
| `Sampler.FirstUniqueDistinct` | app/page.tsx:72-74 | the walk keeps one question per headword |
| `Sampler.FirstUniqueLength` | app/page.tsx:75 | the walk stops at `num` kept questions, or at one when `num` ≤ 1 |
| `Sampler.FirstUniqueExhausts` | app/page.tsx:71-76 | a walk that keeps fewer than `num` questions has met every headword of the walked sequence |
| `Sampler.FirstUniqueSorted` | app/page.tsx:67-76 | walking a sequence sorted by difficulty keeps the kept questions sorted |
| `Sampler.EasiestFirst` | app/page.tsx:67-76 | walking a sequence sorted by difficulty keeps the easiest headwords: a question whose headword was not kept is at least as hard as every kept one |
| `Sampler.FirstPass` | app/page.tsx:69-76 | the first loop returns exactly the walk `FirstUnique(ordered, {}, num)`, and `seen` is exactly its headwords |
| `Sampler.FirstPassFacts` | app/page.tsx:69-76 | the first pass keeps questions of `ordered` with distinct headwords, at most `num` of them (one when `num` ≤ 0), fewer than `num` only when every headword of `ordered` was kept, and sorted when `ordered` is |
| `Sampler.Refill` | app/page.tsx:78-84 | the refill appends exactly the walk over the fresh shuffle that skips the headwords kept so far and stops at `num` in all; `seen` stays exactly the kept headwords |
| `Sampler.RefillKeeps` | app/page.tsx:78-84 | the refill keeps what was there, appends only questions of the fresh shuffle with unseen headwords, keeps headwords distinct, never exceeds `num`, and stops short only when all of the shuffle's headwords are kept |
| `Sampler.PermutedWords` | app/page.tsx:79 | the refill's fresh shuffle of the pool carries exactly the pool's headwords |
| `Sampler.AfterRefill` | app/page.tsx:78-84 | after the refill every kept question is from the pool; a question outside the mix follows all of the mix's headwords; when the first pass already saw every headword of the pool, the refill adds nothing |
| `Sampler.DistinctWords` | app/page.tsx:69-84 | as many headwords as kept questions means no headword is kept twice, which is what the `seen` set enforces |
| `Sampler.SliceKeeps` | app/page.tsx:85 | after the slice, the length is `num` capped at the number of distinct headwords (0 for `num` ≤ 0); when the mix's own headwords suffice, every question is of the mix |
| `Sampler.WalkWithinMix` | app/page.tsx:78-85 | when the walked sequence has at least `num` > 0 headwords, the refill does not run and the result is the first walk |
| `Sampler.WalkKeepsEasiest` | app/page.tsx:67-85 | when the walked sequence is sorted by difficulty and holds the whole pool, every pool question whose headword is not in the result is at least as hard as every question in it |
| `Sampler.WalkInOrder` | app/page.tsx:62-85 | when the walked sequence is a subsequence of the pool with at least `num` > 0 headwords, the result is the first walk and is a subsequence of the pool |
| `Sampler.PickUnique` | app/page.tsx:69-85 | the result is `slice(0, num)` of the two walks (`TwoPasses`); it has min(num, distinct pool headwords) questions from the pool with distinct headwords; a question outside the mix appears only after all of the mix's headwords; the adaptive result is sorted by difficulty |
| `Sampler.SampleUniqueQuestions` | app/page.tsx:51-86 | the result has length min(num, distinct bank headwords) (0 for `num` ≤ 0); headwords are unique; every question is a pool question; questions outside the mix come only after all of the mix's headwords are used; when `num` ≤ the mix's headword count every question is of the mix; the adaptive quiz is in non-decreasing difficulty and asks the easiest headwords (a pool question whose headword is not asked is at least as hard as every question asked); a 'lätt' or 'svår' quiz with enough headwords is the first walk over the filtered pool and asks its questions in bank order; the result is exactly the two walks over the ordered pool and a fresh shuffle, sliced to `num` |
| `WordBank.FlatDifficulties` | app/page.tsx:54-55 | every flattened entry carries its tier's difficulty, so bounds on the tier keys bound every entry |
| `WordBank.BankTiersInRange` | app/page.tsx:16-47 | the bank's tiers are keyed 1 to 5 |
| `Estimator.Round` | app/page.tsx:88 | `Math.round` returns the integer within half of its argument, rounding halves up |
| `Estimator.RoundToNearest` | app/page.tsx:88 | `roundToNearest(n, 100)` is a multiple of 100 within 50 of `n` (halves round up) |
| `Estimator.AgeBaseline` | app/page.tsx:89-97 | every band's prior has a width from 2000 up to its mean, a mean at most 27000, and both are multiples of 1000 |
| `Estimator.BaselineGrowsUntilForty` | app/page.tsx:90-96 | for non-zero ages up to 40, an older age never gets a smaller mean or width; past 40 the mean drops |
| `Estimator.Accuracy` | app/page.tsx:100 | accuracy is 0 when there are no questions, and lies in [0, 1] when 0 ≤ correct ≤ total |
| `Estimator.Weighted` | app/page.tsx:102 | the weighted score is clamped to [0, 1] and equals accuracy × difficulty factor whenever that product is in range |
| `Estimator.Width` | app/page.tsx:103 | the width is non-negative, and it is 0.9 × the base width for up to 20 questions |
| `Estimator.EstimateVocabulary` | app/page.tsx:98-109 | lo is at least 300; lo and hi are multiples of 100 with lo ≤ hi; the mean lies between 0.7 and 1.3 times the age prior's mean; accuracy is 0 for no questions and a percentage in 0..100 for a valid count |
| `Estimator.WidthNarrows` | app/page.tsx:103 | beyond 20 questions, more questions give a strictly narrower width |
| `Estimator.AccuracyMonotone` | app/page.tsx:100 | more correct answers never lower the accuracy |
| `Estimator.WeightedMonotone` | app/page.tsx:101-102 | with a non-negative difficulty factor, the clamped weighted score never falls as the accuracy rises |
| `Estimator.RawMeanMonotone` | app/page.tsx:104 | the unrounded mean never falls as the weighted score rises |
| `Estimator.MeanMonotone` | app/page.tsx:98-108 | with a non-negative difficulty factor, more correct answers never lower the estimated mean |
| `Estimator.IntervalTracksWidth` | app/page.tsx:103-107 | hi − lo is less than the computed width + 100, and when the floor of 300 is not reached it is also more than width − 100 |
| `Estimator.EstimateExample` | app/page.tsx:98-109 | 15 of 20 at average difficulty 3 with no age gives lo 16700, hi 27500, mean 22100, accuracy 75 |
| `Estimator.PerfectBeatsZero` | app/page.tsx:98-108 | at age 10 with 20 questions of difficulty 3, all correct gives a higher mean than none correct |
| `Estimator.MoreQuestionsNarrowExample` | app/page.tsx:103-107 | half right on 100 questions gives a narrower rounded interval than half right on 20 |
| `Quiz.CorrectCount` | app/page.tsx:205 | the correct count over n questions is at most n |
| `Quiz.Finish` | app/page.tsx:202-211 | `total` is the number of questions; `correct` counts indices whose recorded answer equals `correctIndex`; the average is the difficulty sum over max(1, total); the estimate is the estimator's; the displayed accuracy is missing (NaN) exactly when there are no questions and otherwise equals the estimate's accuracy |
| `Quiz.AllCorrectIff` | app/page.tsx:205 | the count equals the number of questions if and only if every question's answer is recorded and correct |
| `Quiz.NoneCorrectIff` | app/page.tsx:205 | the count is zero if and only if no question is answered correctly |
| `Quiz.CountIgnoresOtherKeys` | app/page.tsx:205 | an answer recorded under an index outside the quiz does not change the count |
| `Quiz.DifficultySumBounds` | app/page.tsx:205 | with difficulties from 1 to 5, the sum over n questions lies in n..5n |
| `Quiz.AverageInRange` | app/page.tsx:206 | an empty quiz averages 0; a non-empty quiz with difficulties 1..5 averages between 1 and 5 |
| `Quiz.SampledAverageInRange` | app/page.tsx:51-86 | a non-empty quiz drawn from the pool of a bank keyed 1..5 averages a difficulty between 1 and 5 |

## Left out

- The React components, routing, the session and authentication, the results API, the database and the charts are not part of this model. They are UI and I/O around the engine.
- The random `id` (`uid`, app/page.tsx:14) is dropped from the question record. It depends on the clock and on randomness, and nothing in the engine reads it.
- Floating point is modelled as exact reals. `toFixed(2)` on the posted average, IEEE rounding, NaN and infinities are not modelled.
- Only integer `num` and integer ages are modelled. A fractional or NaN input from the number fields is not.
- `Math.sqrt` is a foreign call. It is passed in as a parameter, constrained only by `IsSqrt`.
- `Estimator.RoundToNearest`: the step is fixed at 100, the default that both callers use. A general step is not modelled.
- `Sampler.SampleUniqueQuestions` takes the bank as a parameter. The source reads the constant `WORD_BANK`, which is `WordBank.Bank()`.
- That the 20 headwords of `Bank()` are distinct is not proved. So the length bound is stated in terms of `|BankWords(bank)|`, not as the literal 20.
- The exact interleaving of `Math.random` draws across calls is not modelled. Each `shuffle` call reads its own stream of draws, which is a re-indexing of the one global stream.
- The 200 ms delayed advance in `answer`, and the navigation between questions, are not modelled. `Quiz.Finish` takes the recorded answers as a map from question index to chosen option.
- `Quiz.Finish` with no questions (NaN accuracy on the result screen) is modelled as `None`. The UI cannot reach that case, because rendering `questions[qIndex]` fails first when the sampler returns nothing.
- Persisting the payload (`fetch('/api/results')`) and the `onFinish` callback are I/O. Only the values they would carry are modelled.
