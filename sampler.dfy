/** `sampleUniqueQuestions`: builds one question per bank entry, orders or
    filters them by the difficulty mix, and keeps the first question of each
    headword until the requested number is reached, refilling from a fresh
    shuffle of the whole pool when the mix runs short. */
module Sampler {
  import opened WordBank
  import opened Shuffling

  /** The three difficulty mixes: 'adaptiv', 'lätt' and 'svår'. */
  datatype Mix = Adaptive | Easy | Hard

  /** Whether a question of difficulty `d` belongs to the mix's own selection. */
  predicate InMix(d: int, mix: Mix)
  {
    match mix
    case Adaptive => true
    case Easy => d <= 2
    case Hard => d >= 4
  }

  function Difficulty(q: Question): real
  {
    q.difficulty as real
  }

  function Prompt(w: string): string
  {
    "Vad betyder ordet \"" + w + "\"?"
  }

  /** `q` is a question about entry `p.1` of difficulty `p.0`: its options are
      the correct definition and the distractors in some order, and
      `correctIndex` points at the correct definition. */
  ghost predicate IsQuestionFor(q: Question, p: (int, WordEntry))
  {
    && q.word == p.1.w
    && q.difficulty == p.0
    && q.prompt == Prompt(p.1.w)
    && multiset(q.options) == multiset([p.1.correct] + p.1.opts)
    && 0 <= q.correctIndex < |q.options|
    && q.options[q.correctIndex] == p.1.correct
  }

  /** The question built for entry `e` of tier `d`, its options shuffled by
      shuffle call number `call`. */
  function MakeQuestion(d: int, e: WordEntry, rand: Random, call: nat): (q: Question)
    ensures IsQuestionFor(q, (d, e))
  {
    var opts := Shuffle([e.correct] + e.opts, rand, call);
    assert e.correct in multiset(opts);
    Question(Prompt(e.w), opts, IndexOf(opts, e.correct), d, e.w)
  }

  /** The questions for a list of (difficulty, entry) pairs; the k-th uses
      shuffle call k. */
  function PoolOf(f: seq<(int, WordEntry)>, rand: Random): (r: seq<Question>)
    ensures |r| == |f|
    ensures forall k :: 0 <= k < |f| ==> r[k] == MakeQuestion(f[k].0, f[k].1, rand, k)
  {
    seq(|f|, k requires 0 <= k < |f| => MakeQuestion(f[k].0, f[k].1, rand, k))
  }

  /** The pool: one question per bank entry, tier by tier. */
  function Pool(bank: seq<Tier>, rand: Random): (r: seq<Question>)
    ensures |r| == |Flat(bank)|
    ensures forall k :: 0 <= k < |r| ==> IsQuestionFor(r[k], Flat(bank)[k])
  {
    PoolOf(Flat(bank), rand)
  }

  /** The questions of `s` that belong to the mix, in order (`pool.filter`). */
  function Filter(s: seq<Question>, mix: Mix): (r: seq<Question>)
    ensures |r| <= |s|
  {
    if s == [] then []
    else
      assert s == [s[0]] + s[1..];
      (if InMix(s[0].difficulty, mix) then [s[0]] else []) + Filter(s[1..], mix)
  }

  /** `r` is `s` with some elements left out and the rest kept in order. */
  ghost predicate Subseq<T>(r: seq<T>, s: seq<T>)
    decreases |s|
  {
    if r == [] then true
    else if s == [] then false
    else (r[0] == s[0] && Subseq(r[1..], s[1..])) || Subseq(r, s[1..])
  }

  lemma {:induction false} SubseqTrans<T>(a: seq<T>, b: seq<T>, c: seq<T>)
    requires Subseq(a, b) && Subseq(b, c)
    ensures Subseq(a, c)
    decreases |c|
  {
    if a != [] {
      if b[0] == c[0] && Subseq(b[1..], c[1..]) {
        if a[0] == b[0] && Subseq(a[1..], b[1..]) {
          SubseqTrans(a[1..], b[1..], c[1..]);
        } else {
          SubseqTrans(a, b[1..], c[1..]);
        }
      } else {
        SubseqTrans(a, b, c[1..]);
      }
    }
  }

  /** `pool.filter` keeps exactly the questions of the mix. */
  lemma {:induction false} FilterMembers(s: seq<Question>, mix: Mix)
    ensures forall q :: q in Filter(s, mix) <==> q in s && InMix(q.difficulty, mix)
    decreases |s|
  {
    if s != [] {
      FilterMembers(s[1..], mix);
      assert s == [s[0]] + s[1..];
    }
  }

  /** Filtering a concatenation filters each part and keeps them in order. */
  lemma {:induction false} FilterAppend(s: seq<Question>, t: seq<Question>, mix: Mix)
    ensures Filter(s + t, mix) == Filter(s, mix) + Filter(t, mix)
    decreases |s|
  {
    if s == [] {
      assert s + t == t;
    } else {
      assert (s + t)[0] == s[0] && (s + t)[1..] == s[1..] + t;
      FilterAppend(s[1..], t, mix);
    }
  }

  /** `pool.filter` keeps the pool's order. */
  lemma {:induction false} FilterSubseq(s: seq<Question>, mix: Mix)
    ensures Subseq(Filter(s, mix), s)
    decreases |s|
  {
    if s != [] {
      FilterSubseq(s[1..], mix);
      var r := Filter(s, mix);
      if InMix(s[0].difficulty, mix) {
        assert r[0] == s[0] && r[1..] == Filter(s[1..], mix);
      } else {
        assert r == Filter(s[1..], mix);
      }
    }
  }

  /** The sequence the main pass walks: the easy or the hard tiers of the pool,
      or, for the adaptive mix, the whole pool shuffled by shuffle call `call`
      and then stably sorted by difficulty. */
  function Ordered(pool: seq<Question>, mix: Mix, rand: Random, call: nat): (r: seq<Question>)
    ensures forall q :: q in r <==> q in pool && InMix(q.difficulty, mix)
    ensures mix == Adaptive ==> multiset(r) == multiset(pool) && SortedBy(r, Difficulty)
    ensures mix != Adaptive ==> Subseq(r, pool)
  {
    match mix
    case Easy => FilterMembers(pool, mix); FilterSubseq(pool, mix); Filter(pool, mix)
    case Hard => FilterMembers(pool, mix); FilterSubseq(pool, mix); Filter(pool, mix)
    case Adaptive =>
      var r := SortBy(Shuffle(pool, rand, call), Difficulty);
      assert forall q :: q in r <==> q in multiset(r);
      r
  }

  /** The headwords of the bank entries whose tier belongs to the mix. */
  function MixWords(bank: seq<Tier>, mix: Mix): set<string>
  {
    set p | p in Flat(bank) && InMix(p.0, mix) :: p.1.w
  }

  ghost predicate UniqueWords(qs: seq<Question>)
  {
    forall i, j :: 0 <= i < j < |qs| ==> qs[i].word != qs[j].word
  }

  /** `out.slice(0, n)`, with JavaScript's reading of a negative end. */
  function Slice(s: seq<Question>, n: int): (r: seq<Question>)
    ensures |r| <= |s| && r == s[..|r|]
    ensures n >= 0 ==> |r| == if n < |s| then n else |s|
    ensures n < 0 ==> |r| == if |s| + n > 0 then |s| + n else 0
  {
    if n >= 0 then s[..if n < |s| then n else |s|]
    else s[..if |s| + n > 0 then |s| + n else 0]
  }

  lemma PoolOfSnoc(f: seq<(int, WordEntry)>, x: (int, WordEntry), rand: Random)
    ensures PoolOf(f + [x], rand) == PoolOf(f, rand) + [MakeQuestion(x.0, x.1, rand, |f|)]
  {
    var g := f + [x];
    var a := PoolOf(g, rand);
    var b := PoolOf(f, rand) + [MakeQuestion(x.0, x.1, rand, |f|)];
    forall k | 0 <= k < |g| ensures a[k] == b[k] {
      if k < |f| {
        assert g[k] == f[k];
      } else {
        assert g[k] == x;
      }
    }
    assert |a| == |b|;
  }

  lemma FlatSnoc(bank: seq<Tier>, t: nat)
    requires t < |bank|
    ensures Flat(bank[..t + 1]) == Flat(bank[..t]) + TierEntries(bank[t])
  {
    assert bank[..t + 1][..t] == bank[..t];
  }

  lemma SnocPrefix<T>(done: seq<T>, s: seq<T>, j: nat)
    requires j < |s|
    ensures (done + s[..j]) + [s[j]] == done + s[..j + 1]
  {
    assert s[..j + 1] == s[..j] + [s[j]];
  }

  lemma PoolOfStep(done: seq<(int, WordEntry)>, entries: seq<(int, WordEntry)>, j: nat,
                   d: int, e: WordEntry, n: nat, rand: Random)
    requires j < |entries| && entries[j] == (d, e) && n == |done| + j
    ensures PoolOf(done + entries[..j + 1], rand)
         == PoolOf(done + entries[..j], rand) + [MakeQuestion(d, e, rand, n)]
  {
    var f := done + entries[..j];
    SnocPrefix(done, entries, j);
    assert f + [(d, e)] == done + entries[..j + 1];
    PoolOfSnoc(f, (d, e), rand);
  }

  /** The inner loop of the pool construction: one question per entry of
      `tier`, appended to the questions already built for `done`. */
  method AddTier(pool: seq<Question>, ghost done: seq<(int, WordEntry)>, tier: Tier, rand: Random)
    returns (pool': seq<Question>)
    requires pool == PoolOf(done, rand)
    ensures pool' == PoolOf(done + TierEntries(tier), rand)
  {
    pool' := pool;
    ghost var entries := TierEntries(tier);
    assert done + entries[..0] == done;
    for j := 0 to |tier.entries|
      invariant pool' == PoolOf(done + entries[..j], rand)
    {
      var e := tier.entries[j];
      PoolOfStep(done, entries, j, tier.difficulty, e, |pool'|, rand);
      pool' := pool' + [MakeQuestion(tier.difficulty, e, rand, |pool'|)];
    }
    assert entries[..|tier.entries|] == entries;
  }

  /** The nested loop that fills `pool`, tier by tier. */
  method BuildPool(bank: seq<Tier>, rand: Random) returns (pool: seq<Question>)
    ensures pool == Pool(bank, rand)
  {
    pool := [];
    for t := 0 to |bank|
      invariant pool == PoolOf(Flat(bank[..t]), rand)
    {
      pool := AddTier(pool, Flat(bank[..t]), bank[t], rand);
      FlatSnoc(bank, t);
    }
    assert bank[..|bank|] == bank;
  }

  lemma WordsOfSnoc(qs: seq<Question>, q: Question)
    ensures Words(qs + [q]) == Words(qs) + {q.word}
  {
    var s := qs + [q];
    forall w | w in Words(s) ensures w in Words(qs) + {q.word} {
      var i :| 0 <= i < |s| && s[i].word == w;
      if i < |qs| {
        assert s[i] == qs[i];
      }
    }
    forall w | w in Words(qs) + {q.word} ensures w in Words(s) {
      if w in Words(qs) {
        var i :| 0 <= i < |qs| && qs[i].word == w;
        assert s[i] == qs[i];
      } else {
        assert s[|qs|] == q;
      }
    }
  }

  lemma SubsetCard(a: set<string>, b: set<string>)
    requires a <= b
    ensures |a| <= |b|
  {
    assert b == a + (b - a);
    assert a * (b - a) == {};
  }

  /** The headwords of the questions of `qs` that belong to the mix. */
  function MixWordsOf(qs: seq<Question>, mix: Mix): set<string>
  {
    set q | q in qs && InMix(q.difficulty, mix) :: q.word
  }

  /** Questions that match their entries one for one carry the same
      headwords, mix by mix. */
  lemma SelectionWords(pool: seq<Question>, f: seq<(int, WordEntry)>, mix: Mix)
    requires |pool| == |f|
    requires forall k :: 0 <= k < |f| ==> pool[k].word == f[k].1.w && pool[k].difficulty == f[k].0
    ensures MixWordsOf(pool, mix) == set p | p in f && InMix(p.0, mix) :: p.1.w
  {
    forall w | w in MixWordsOf(pool, mix) ensures w in set p | p in f && InMix(p.0, mix) :: p.1.w {
      var q :| q in pool && InMix(q.difficulty, mix) && q.word == w;
      var k :| 0 <= k < |pool| && pool[k] == q;
      assert f[k] in f;
    }
    forall w | w in (set p | p in f && InMix(p.0, mix) :: p.1.w) ensures w in MixWordsOf(pool, mix) {
      var p :| p in f && InMix(p.0, mix) && p.1.w == w;
      var k :| 0 <= k < |f| && f[k] == p;
      assert pool[k] in pool;
    }
  }

  /** A sequence holding exactly the pool's questions of the mix has the
      mix's headwords. */
  lemma SelectedWords(ordered: seq<Question>, pool: seq<Question>, mix: Mix)
    requires forall q :: q in ordered <==> q in pool && InMix(q.difficulty, mix)
    ensures Words(ordered) == MixWordsOf(pool, mix)
  {
  }

  /** The pool's headwords are the bank's, and the mix's selection of it
      covers exactly the headwords of the mix's tiers. */
  lemma PoolWords(bank: seq<Tier>, rand: Random, mix: Mix)
    ensures Words(Pool(bank, rand)) == MixWordsOf(Pool(bank, rand), Adaptive) == BankWords(bank)
    ensures MixWordsOf(Pool(bank, rand), mix) == MixWords(bank, mix)
  {
    var pool := Pool(bank, rand);
    SelectionWords(pool, Flat(bank), mix);
    SelectionWords(pool, Flat(bank), Adaptive);
    assert BankWords(bank) == MixWords(bank, Adaptive);
    SelectedWords(pool, pool, Adaptive);
  }

  /** `seen` is exactly the headwords of `out`, one per question. */
  ghost predicate Kept(seen: set<string>, out: seq<Question>)
  {
    seen == Words(out) && |seen| == |out|
  }

  /** As many headwords as questions means no headword repeats. */
  lemma DistinctWords(out: seq<Question>)
    requires |Words(out)| == |out|
    ensures UniqueWords(out)
  {
    forall i, j | 0 <= i < j < |out| ensures out[i].word != out[j].word {
      if out[i].word == out[j].word {
        var rest := out[..j] + out[j + 1..];
        assert Words(out) <= Words(rest) by {
          forall w | w in Words(out) ensures w in Words(rest) {
            var q :| q in out && q.word == w;
            var k :| 0 <= k < |out| && out[k] == q;
            if k < j {
              assert rest[k] == q;
            } else if k == j {
              assert rest[i] == out[i];
            } else {
              assert rest[k - 1] == q;
            }
          }
        }
        SubsetCard(Words(out), Words(rest));
        WordsCard(rest);
      }
    }
  }

  /** The walk of both loops as a function: go through `s` in order, skip a
      question whose headword is in `seen`, keep one whose headword is not
      (and add the headword to `seen`), and stop right after keeping the
      `n`-th question; with `n` at most 1 the first kept question ends the
      walk. */
  function FirstUnique(s: seq<Question>, seen: set<string>, n: int): seq<Question>
    decreases |s|
  {
    if s == [] then []
    else if s[0].word in seen then FirstUnique(s[1..], seen, n)
    else if n <= 1 then [s[0]]
    else [s[0]] + FirstUnique(s[1..], seen + {s[0].word}, n - 1)
  }

  /** One step of the walk, read at index `i` of `s`. */
  lemma FirstUniqueStep(s: seq<Question>, i: nat, seen: set<string>, m: int)
    requires i < |s|
    ensures s[i].word in seen ==> FirstUnique(s[i..], seen, m) == FirstUnique(s[i + 1..], seen, m)
    ensures s[i].word !in seen && m <= 1 ==> FirstUnique(s[i..], seen, m) == [s[i]]
    ensures s[i].word !in seen && m > 1
        ==> FirstUnique(s[i..], seen, m) == [s[i]] + FirstUnique(s[i + 1..], seen + {s[i].word}, m - 1)
  {
    assert s[i..][0] == s[i] && s[i..][1..] == s[i + 1..];
  }

  /** The loops' bookkeeping for one step: `goal` is what is kept so far
      followed by the walk over the rest of `s` from index `i`. */
  lemma WalkStep(goal: seq<Question>, out: seq<Question>, s: seq<Question>, i: nat,
                 seen: set<string>, m: int, q: Question)
    requires i < |s| && q == s[i]
    requires goal == out + FirstUnique(s[i..], seen, m)
    ensures q.word in seen ==> goal == out + FirstUnique(s[i + 1..], seen, m)
    ensures q.word !in seen && m <= 1 ==> goal == out + [q]
    ensures q.word !in seen && m > 1 ==> goal == (out + [q]) + FirstUnique(s[i + 1..], seen + {q.word}, m - 1)
  {
    FirstUniqueStep(s, i, seen, m);
  }

  /** The walk keeps questions of `s`, in their order in `s`. */
  lemma {:induction false} FirstUniqueSubseq(s: seq<Question>, seen: set<string>, n: int)
    ensures Subseq(FirstUnique(s, seen, n), s)
    decreases |s|
  {
    if s != [] {
      var r := FirstUnique(s, seen, n);
      if s[0].word in seen {
        FirstUniqueSubseq(s[1..], seen, n);
      } else if n <= 1 {
        assert r[0] == s[0] && r[1..] == [];
      } else {
        FirstUniqueSubseq(s[1..], seen + {s[0].word}, n - 1);
        assert r[0] == s[0] && r[1..] == FirstUnique(s[1..], seen + {s[0].word}, n - 1);
      }
    }
  }

  /** The walk keeps only questions of `s` whose headwords were unseen. */
  lemma {:induction false} FirstUniqueUnseen(s: seq<Question>, seen: set<string>, n: int)
    ensures forall q :: q in FirstUnique(s, seen, n) ==> q in s && q.word !in seen
    decreases |s|
  {
    if s != [] {
      assert forall q :: q in s[1..] ==> q in s;
      if s[0].word in seen {
        FirstUniqueUnseen(s[1..], seen, n);
      } else if n > 1 {
        FirstUniqueUnseen(s[1..], seen + {s[0].word}, n - 1);
      }
    }
  }

  /** Every kept question is the first question of `s` with its headword: it
      occurs in `s` no later than any question sharing its headword. */
  lemma {:induction false} FirstUniqueFirst(s: seq<Question>, seen: set<string>, n: int)
    ensures forall q, j :: q in FirstUnique(s, seen, n) && 0 <= j < |s| && s[j].word == q.word
              ==> q in s[..j + 1]
    decreases |s|
  {
    if s != [] {
      var r := FirstUnique(s, seen, n);
      if s[0].word in seen {
        FirstUniqueFirst(s[1..], seen, n);
        FirstUniqueUnseen(s[1..], seen, n);
        forall q, j | q in r && 0 <= j < |s| && s[j].word == q.word
          ensures q in s[..j + 1]
        {
          FirstLater(s, q, j);
        }
      } else if n > 1 {
        var t := seen + {s[0].word};
        FirstUniqueFirst(s[1..], t, n - 1);
        FirstUniqueUnseen(s[1..], t, n - 1);
        forall q, j | q in r && 0 <= j < |s| && s[j].word == q.word
          ensures q in s[..j + 1]
        {
          if q == s[0] {
            assert s[..j + 1][0] == q;
          } else {
            FirstLater(s, q, j);
          }
        }
      } else {
        forall q, j | q in r && 0 <= j < |s| && s[j].word == q.word
          ensures q in s[..j + 1]
        {
          assert s[..j + 1][0] == q;
        }
      }
    }
  }

  /** An occurrence in the tail of `s`, before index `j`, is one in `s`. */
  lemma FirstLater(s: seq<Question>, q: Question, j: int)
    requires 0 < |s| && 0 <= j < |s|
    requires j > 0 ==> q in s[1..][..j]
    requires j == 0 ==> q == s[0]
    ensures q in s[..j + 1]
  {
    if j > 0 {
      assert s[1..][..j] == s[..j + 1][1..];
    } else {
      assert s[..1][0] == q;
    }
  }

  /** A headword of `s` that was unseen and is not kept occurs only after
      every kept question: the walk over the part of `s` before it keeps
      the same questions. */
  lemma {:induction false} FirstUniqueBefore(s: seq<Question>, seen: set<string>, n: int, j: nat)
    requires j < |s| && s[j].word !in seen
    requires forall q :: q in FirstUnique(s, seen, n) ==> q.word != s[j].word
    ensures FirstUnique(s, seen, n) == FirstUnique(s[..j], seen, n)
    decreases |s|
  {
    var r := FirstUnique(s, seen, n);
    if s[0].word in seen {
      assert j > 0;
      assert s[..j][0] == s[0] && s[..j][1..] == s[1..][..j - 1];
      FirstUniqueBefore(s[1..], seen, n, j - 1);
    } else {
      assert r[0] == s[0];
      assert j > 0;
      assert s[..j][0] == s[0] && s[..j][1..] == s[1..][..j - 1];
      if n > 1 {
        var t := seen + {s[0].word};
        assert forall q :: q in FirstUnique(s[1..], t, n - 1) ==> q in r;
        FirstUniqueBefore(s[1..], t, n - 1, j - 1);
      }
    }
  }

  /** A question's headword is among the headwords of a list holding it. */
  lemma WordOf(qs: seq<Question>, q: Question)
    requires q in qs
    ensures q.word in Words(qs)
  {
    var i :| 0 <= i < |qs| && qs[i] == q;
  }

  /** Walking a sequence sorted by difficulty keeps the easiest headwords: a
      question whose headword was not kept is at least as hard as every kept
      question. */
  lemma EasiestFirst(s: seq<Question>, n: int)
    requires SortedBy(s, Difficulty)
    ensures var r := FirstUnique(s, {}, n);
      forall j, p :: 0 <= j < |s| && s[j].word !in Words(r) && p in r ==> p.difficulty <= s[j].difficulty
  {
    var r := FirstUnique(s, {}, n);
    forall j, p | 0 <= j < |s| && s[j].word !in Words(r) && p in r
      ensures p.difficulty <= s[j].difficulty
    {
      forall q | q in r ensures q.word != s[j].word {
        WordOf(r, q);
      }
      FirstUniqueBefore(s, {}, n, j);
      FirstUniqueUnseen(s[..j], {}, n);
      var i :| 0 <= i < j && s[..j][i] == p;
      assert Difficulty(s[i]) <= Difficulty(s[j]);
    }
  }

  lemma WordsOfAppend(a: seq<Question>, b: seq<Question>)
    ensures Words(a + b) == Words(a) + Words(b)
  {
    var s := a + b;
    forall w | w in Words(s) ensures w in Words(a) + Words(b) {
      var i :| 0 <= i < |s| && s[i].word == w;
      if i < |a| {
        assert s[i] == a[i];
      } else {
        assert s[i] == b[i - |a|];
      }
    }
    forall w | w in Words(a) + Words(b) ensures w in Words(s) {
      if w in Words(a) {
        var i :| 0 <= i < |a| && a[i].word == w;
        assert s[i] == a[i];
      } else {
        var i :| 0 <= i < |b| && b[i].word == w;
        assert s[|a| + i] == b[i];
      }
    }
  }

  /** The walk's headword and tail split of a non-empty `s`. */
  lemma WordsOfCons(s: seq<Question>)
    requires s != []
    ensures Words(s) == {s[0].word} + Words(s[1..])
  {
    assert s == [s[0]] + s[1..];
    WordsOfAppend([s[0]], s[1..]);
    assert Words([s[0]]) == {s[0].word} by {
      assert [s[0]][0] == s[0];
    }
  }

  /** The walk keeps one question per headword: as many headwords as
      questions. */
  lemma {:induction false} FirstUniqueDistinct(s: seq<Question>, seen: set<string>, n: int)
    ensures |Words(FirstUnique(s, seen, n))| == |FirstUnique(s, seen, n)|
    decreases |s|
  {
    if s != [] {
      if s[0].word in seen {
        FirstUniqueDistinct(s[1..], seen, n);
      } else if n <= 1 {
        DistinctCons(s[0], []);
        assert [s[0]] + [] == [s[0]];
      } else {
        var t := seen + {s[0].word};
        FirstUniqueDistinct(s[1..], t, n - 1);
        FirstUniqueUnseen(s[1..], t, n - 1);
        DistinctCons(s[0], FirstUnique(s[1..], t, n - 1));
      }
    }
  }

  /** Putting a question with a new headword in front keeps one question per
      headword. */
  lemma DistinctCons(x: Question, tail: seq<Question>)
    requires |Words(tail)| == |tail|
    requires forall q :: q in tail ==> q.word != x.word
    ensures |Words([x] + tail)| == |[x] + tail|
  {
    WordsOfCons([x] + tail);
    assert ([x] + tail)[0] == x && ([x] + tail)[1..] == tail;
    forall k | 0 <= k < |tail| ensures tail[k].word != x.word {
      assert tail[k] in tail;
    }
  }

  /** The walk stops at `n` kept questions, or at one when `n` is at most 1. */
  lemma {:induction false} FirstUniqueLength(s: seq<Question>, seen: set<string>, n: int)
    ensures |FirstUnique(s, seen, n)| <= if n <= 0 then 1 else n
    decreases |s|
  {
    if s != [] {
      if s[0].word in seen {
        FirstUniqueLength(s[1..], seen, n);
      } else if n > 1 {
        FirstUniqueLength(s[1..], seen + {s[0].word}, n - 1);
      }
    }
  }

  /** A walk that keeps fewer than `n` questions has met every headword of
      `s`: each was seen before or is kept. */
  lemma {:induction false} FirstUniqueExhausts(s: seq<Question>, seen: set<string>, n: int)
    ensures |FirstUnique(s, seen, n)| < n ==> Words(s) <= seen + Words(FirstUnique(s, seen, n))
    decreases |s|
  {
    if s != [] {
      var r := FirstUnique(s, seen, n);
      WordsOfCons(s);
      if s[0].word in seen {
        FirstUniqueExhausts(s[1..], seen, n);
      } else if n > 1 {
        var t := seen + {s[0].word};
        FirstUniqueExhausts(s[1..], t, n - 1);
        assert r[0] == s[0] && r[1..] == FirstUnique(s[1..], t, n - 1);
        WordsOfCons(r);
      }
    }
  }

  /** Walking a sequence sorted by difficulty keeps its questions sorted. */
  lemma {:induction false} FirstUniqueSorted(s: seq<Question>, seen: set<string>, n: int)
    requires SortedBy(s, Difficulty)
    ensures SortedBy(FirstUnique(s, seen, n), Difficulty)
    decreases |s|
  {
    if s != [] {
      SortedTail(s);
      if s[0].word in seen {
        FirstUniqueSorted(s[1..], seen, n);
      } else if n <= 1 {
        SortedCons(s[0], []);
        assert [s[0]] + [] == [s[0]];
      } else {
        var t := seen + {s[0].word};
        var tail := FirstUnique(s[1..], t, n - 1);
        FirstUniqueSorted(s[1..], t, n - 1);
        FirstUniqueUnseen(s[1..], t, n - 1);
        SortedCons(s[0], tail);
      }
    }
  }

  lemma SortedTail(s: seq<Question>)
    requires s != [] && SortedBy(s, Difficulty)
    ensures SortedBy(s[1..], Difficulty)
    ensures forall q :: q in s[1..] ==> Difficulty(s[0]) <= Difficulty(q)
  {
    forall a, b | 0 <= a < b < |s[1..]| ensures Difficulty(s[1..][a]) <= Difficulty(s[1..][b]) {
      assert s[1..][a] == s[a + 1] && s[1..][b] == s[b + 1];
    }
    forall q | q in s[1..] ensures Difficulty(s[0]) <= Difficulty(q) {
      var k :| 0 <= k < |s[1..]| && s[1..][k] == q;
      assert s[k + 1] == q;
    }
  }

  lemma SortedCons(x: Question, tail: seq<Question>)
    requires SortedBy(tail, Difficulty)
    requires forall q :: q in tail ==> Difficulty(x) <= Difficulty(q)
    ensures SortedBy([x] + tail, Difficulty)
  {
    var r := [x] + tail;
    forall a, b | 0 <= a < b < |r| ensures Difficulty(r[a]) <= Difficulty(r[b]) {
      assert r[b] == tail[b - 1];
      if a > 0 {
        assert r[a] == tail[a - 1];
      }
    }
  }

  /** Lines 69-84 as a function: the first walk over `ordered`, then, when it
      kept fewer than `num` questions, a walk over `again` that skips every
      headword kept so far. */
  function TwoPasses(ordered: seq<Question>, again: seq<Question>, num: int): seq<Question>
  {
    var main := FirstUnique(ordered, {}, num);
    if |main| < num then main + FirstUnique(again, Words(main), num - |main|) else main
  }

  /** The first loop: walk `ordered`, keep each question whose headword is
      not yet in `seen`, and stop as soon as `num` questions are kept. */
  method FirstPass(ordered: seq<Question>, num: int) returns (seen: set<string>, out: seq<Question>)
    ensures out == FirstUnique(ordered, {}, num)
    ensures seen == Words(out)
  {
    seen, out := {}, [];
    for i := 0 to |ordered|
      invariant FirstUnique(ordered, {}, num) == out + FirstUnique(ordered[i..], seen, num - |out|)
      invariant out == [] || |out| < num
      invariant seen == Words(out)
    {
      var q := ordered[i];
      WalkStep(FirstUnique(ordered, {}, num), out, ordered, i, seen, num - |out|, q);
      if q.word in seen {
        continue;
      }
      WordsOfSnoc(out, q);
      seen := seen + {q.word};
      out := out + [q];
      if |out| >= num {
        break;
      }
    }
  }

  /** What the first pass keeps: distinct headwords of `ordered`, at most
      `num` of them (one when `num` is at most 1), fewer only when every
      headword of `ordered` is kept, and sorted when `ordered` is. */
  lemma FirstPassFacts(ordered: seq<Question>, num: int)
    ensures var out := FirstUnique(ordered, {}, num);
      && Kept(Words(out), out)
      && (forall q :: q in out ==> q in ordered)
      && |out| <= (if num <= 0 then 1 else num)
      && (|out| < num ==> Words(ordered) <= Words(out))
      && (SortedBy(ordered, Difficulty) ==> SortedBy(out, Difficulty))
  {
    FirstUniqueUnseen(ordered, {}, num);
    FirstUniqueDistinct(ordered, {}, num);
    FirstUniqueLength(ordered, {}, num);
    FirstUniqueExhausts(ordered, {}, num);
    if SortedBy(ordered, Difficulty) {
      FirstUniqueSorted(ordered, {}, num);
    }
  }

  /** The second loop: with fewer than `num` questions kept, walk `again` (a
      fresh shuffle of the pool) and keep unseen headwords the same way. */
  method Refill(again: seq<Question>, seen0: set<string>, out0: seq<Question>, num: int)
    returns (seen: set<string>, out: seq<Question>)
    requires seen0 == Words(out0) && |out0| < num
    ensures out == out0 + FirstUnique(again, seen0, num - |out0|)
    ensures seen == Words(out)
  {
    ghost var goal := out0 + FirstUnique(again, seen0, num - |out0|);
    seen, out := seen0, out0;
    for i := 0 to |again|
      invariant goal == out + FirstUnique(again[i..], seen, num - |out|)
      invariant |out| < num
      invariant seen == Words(out)
    {
      var q := again[i];
      WalkStep(goal, out, again, i, seen, num - |out|, q);
      if q.word in seen {
        continue;
      }
      WordsOfSnoc(out, q);
      seen := seen + {q.word};
      out := out + [q];
      if |out| >= num {
        break;
      }
    }
  }

  /** What the refill adds: questions of `again` with headwords outside
      `seen0`, one per headword, up to `num` in all, and fewer only when
      every headword of `again` has been met. */
  lemma RefillKeeps(again: seq<Question>, out0: seq<Question>, num: int, out: seq<Question>)
    requires |Words(out0)| == |out0| && |out0| < num
    requires out == out0 + FirstUnique(again, Words(out0), num - |out0|)
    ensures Kept(Words(out), out)
    ensures |out0| <= |out| <= num && out[..|out0|] == out0
    ensures forall k :: |out0| <= k < |out| ==> out[k] in again && out[k].word !in Words(out0)
    ensures |out| < num ==> Words(again) <= Words(out)
  {
    var added := FirstUnique(again, Words(out0), num - |out0|);
    FirstUniqueUnseen(again, Words(out0), num - |out0|);
    FirstUniqueLength(again, Words(out0), num - |out0|);
    FirstUniqueDistinct(again, Words(out0), num - |out0|);
    RefillDistinct(out0, added);
    RefillExhausts(again, out0, num, added);
    Appended(out, out0, added, again, Words(out0));
  }

  /** Appending questions with new, distinct headwords keeps one question per
      headword. */
  lemma RefillDistinct(out0: seq<Question>, added: seq<Question>)
    requires |Words(out0)| == |out0|
    requires |Words(added)| == |added|
    requires forall q :: q in added ==> q.word !in Words(out0)
    ensures |Words(out0 + added)| == |out0 + added|
  {
    WordsOfAppend(out0, added);
    assert Words(out0) * Words(added) == {} by {
      forall w | w in Words(added) ensures w !in Words(out0) {
        var k :| 0 <= k < |added| && added[k].word == w;
        assert added[k] in added;
      }
    }
  }

  lemma RefillExhausts(again: seq<Question>, out0: seq<Question>, num: int, added: seq<Question>)
    requires |out0| < num
    requires added == FirstUnique(again, Words(out0), num - |out0|)
    ensures |out0 + added| < num ==> Words(again) <= Words(out0 + added)
  {
    FirstUniqueExhausts(again, Words(out0), num - |out0|);
    WordsOfAppend(out0, added);
  }

  /** Reading `out0 + added` back by index. */
  lemma Appended(out: seq<Question>, out0: seq<Question>, added: seq<Question>, again: seq<Question>, seen0: set<string>)
    requires out == out0 + added
    requires forall q :: q in added ==> q in again && q.word !in seen0
    ensures out[..|out0|] == out0
    ensures forall k :: |out0| <= k < |out| ==> out[k] in again && out[k].word !in seen0
  {
    forall k | |out0| <= k < |out|
      ensures out[k] in again && out[k].word !in seen0
    {
      assert out[k] == added[k - |out0|];
    }
  }

  lemma {:induction false} WordsCard(qs: seq<Question>)
    ensures |Words(qs)| <= |qs|
  {
    if qs != [] {
      WordsCard(qs[..|qs| - 1]);
      WordsOfSnoc(qs[..|qs| - 1], qs[|qs| - 1]);
      assert qs == qs[..|qs| - 1] + [qs[|qs| - 1]];
    }
  }

  lemma WordsOfPrefix(qs: seq<Question>, k: nat, m: nat)
    requires k <= m <= |qs|
    ensures Words(qs[..k]) <= Words(qs[..m])
  {
    forall w | w in Words(qs[..k]) ensures w in Words(qs[..m]) {
      var q :| q in qs[..k] && q.word == w;
      var j :| 0 <= j < k && qs[..k][j] == q;
      assert qs[..m][j] == q;
    }
  }

  /** What `slice(0, num)` keeps of the kept questions. */
  lemma SliceKeeps(pool: seq<Question>, ordered: seq<Question>, seen: set<string>, out: seq<Question>, num: int, mix: Mix)
    requires Kept(seen, out)
    requires forall q :: q in out ==> q in pool
    requires |out| <= if num <= 0 then 1 else num
    requires |out| < num ==> Words(pool) <= seen
    requires forall k :: 0 <= k < |out| && !InMix(out[k].difficulty, mix) ==> Words(ordered) <= Words(out[..k])
    ensures var r := Slice(out, num);
      && |r| == (if num <= 0 then 0 else if num < |Words(pool)| then num else |Words(pool)|)
      && (num <= |Words(ordered)| ==> forall q :: q in r ==> InMix(q.difficulty, mix))
      && (num > 0 ==> r == out)
      && (num <= 0 ==> r == [])
  {
    assert seen <= Words(pool) by {
      forall w | w in seen ensures w in Words(pool) {
        var q :| q in out && q.word == w;
      }
    }
    SubsetCard(seen, Words(pool));
    var r := Slice(out, num);
    if num > 0 {
      assert r == out;
      if |out| < num {
        assert seen == Words(pool);
      }
      if num <= |Words(ordered)| {
        forall q | q in r ensures InMix(q.difficulty, mix) {
          var k :| 0 <= k < |r| && r[k] == q;
          if !InMix(q.difficulty, mix) {
            SubsetCard(Words(ordered), Words(r[..k]));
            WordsCard(r[..k]);
            assert false;
          }
        }
      }
    }
  }

  /** A permutation has the same headwords. */
  lemma PermutedWords(a: seq<Question>, b: seq<Question>)
    requires multiset(a) == multiset(b)
    ensures Words(a) == Words(b)
  {
    WordsWithin(a, b);
    WordsWithin(b, a);
  }

  /** Every question of `a` is in `b`, so `b` has all of `a`'s headwords. */
  lemma WordsWithin(a: seq<Question>, b: seq<Question>)
    requires multiset(a) <= multiset(b)
    ensures Words(a) <= Words(b)
  {
    forall w | w in Words(a) ensures w in Words(b) {
      var i :| 0 <= i < |a| && a[i].word == w;
      assert a[i] in multiset(a);
      assert a[i] in b;
      var j :| 0 <= j < |b| && b[j] == a[i];
    }
  }

  /** What the refill leaves: every kept question is from the pool, one
      outside the mix follows all of the mix's headwords, and when the main
      pass already saw every headword of the pool nothing is added. */
  lemma AfterRefill(pool: seq<Question>, ordered: seq<Question>, again: seq<Question>,
                    main: seq<Question>, out: seq<Question>, mix: Mix)
    requires forall q :: q in ordered ==> q in pool && InMix(q.difficulty, mix)
    requires forall q :: q in main ==> q in ordered
    requires |out| > |main| ==> Words(ordered) <= Words(main)
    requires multiset(again) == multiset(pool)
    requires |main| <= |out| && out[..|main|] == main
    requires forall k :: |main| <= k < |out| ==> out[k] in again && out[k].word !in Words(main)
    ensures forall q :: q in out ==> q in pool
    ensures forall k :: 0 <= k < |out| && !InMix(out[k].difficulty, mix) ==> Words(ordered) <= Words(out[..k])
    ensures Words(pool) <= Words(main) ==> out == main
  {
    forall q | q in out ensures q in pool {
      var k :| 0 <= k < |out| && out[k] == q;
      if k < |main| {
        assert out[..|main|][k] == q;
      } else {
        assert q in multiset(again);
      }
    }
    forall k | 0 <= k < |out| && !InMix(out[k].difficulty, mix)
      ensures Words(ordered) <= Words(out[..k])
    {
      if k < |main| {
        assert false;
      }
      assert out[..k][..|main|] == main;
      WordsOfPrefix(out, |main|, k);
    }
    if Words(pool) <= Words(main) {
      if |out| > |main| {
        PermutedWords(again, pool);
        assert false;
      }
      assert out == out[..|main|];
    }
  }

  /** Reading the two loops' results back as `TwoPasses`. */
  lemma TwoPassesOf(ordered: seq<Question>, again: seq<Question>, num: int, main: seq<Question>, out: seq<Question>)
    requires main == FirstUnique(ordered, {}, num)
    requires |main| < num ==> out == main + FirstUnique(again, Words(main), num - |main|)
    requires |main| >= num ==> out == main
    ensures out == TwoPasses(ordered, again, num)
  {
  }

  /** Lines 69-85 of `sampleUniqueQuestions`: the first pass over `ordered`,
      the refill from a fresh shuffle of `pool` (shuffle call `call`) when
      fewer than `num` questions were kept, and the final `slice(0, num)`. */
  method PickUnique(pool: seq<Question>, ordered: seq<Question>, num: int, mix: Mix, rand: Random, call: nat)
    returns (r: seq<Question>)
    requires forall q :: q in ordered ==> q in pool && InMix(q.difficulty, mix)
    requires mix == Adaptive ==> SortedBy(ordered, Difficulty) && Words(ordered) == Words(pool)
    ensures |r| == if num <= 0 then 0
                   else if num < |Words(pool)| then num else |Words(pool)|
    ensures UniqueWords(r)
    ensures forall q :: q in r ==> q in pool
    ensures forall k :: 0 <= k < |r| && !InMix(r[k].difficulty, mix) ==> Words(ordered) <= Words(r[..k])
    ensures num <= |Words(ordered)| ==> forall q :: q in r ==> InMix(q.difficulty, mix)
    ensures mix == Adaptive ==> SortedBy(r, Difficulty)
    ensures r == Slice(TwoPasses(ordered, Shuffle(pool, rand, call), num), num)
  {
    var seen, out := FirstPass(ordered, num);
    ghost var main := out;
    ghost var again0 := Shuffle(pool, rand, call);
    FirstPassFacts(ordered, num);
    if |out| < num {
      var again := Shuffle(pool, rand, call);
      PermutedWords(again, pool);
      seen, out := Refill(again, seen, out, num);
      RefillKeeps(again, main, num, out);
    }
    TwoPassesOf(ordered, again0, num, main, out);
    AfterRefill(pool, ordered, Shuffle(pool, rand, call), main, out, mix);
    SliceKeeps(pool, ordered, seen, out, num, mix);
    DistinctWords(out);
    r := Slice(out, num);
  }

  /** When the walked sequence has at least `num` headwords, the refill never
      runs and the result is the first walk. */
  lemma WalkWithinMix(ordered: seq<Question>, again: seq<Question>, num: int)
    requires 0 < num <= |Words(ordered)|
    ensures Slice(TwoPasses(ordered, again, num), num) == FirstUnique(ordered, {}, num)
  {
    var main := FirstUnique(ordered, {}, num);
    FirstPassFacts(ordered, num);
    if |main| < num {
      SubsetCard(Words(ordered), Words(main));
    }
  }

  /** When the walked sequence is sorted by difficulty and holds every
      question of the pool, the kept questions are the easiest: a pool
      question whose headword was not kept is at least as hard as every kept
      question. */
  lemma WalkKeepsEasiest(pool: seq<Question>, ordered: seq<Question>, again: seq<Question>, num: int, r: seq<Question>)
    requires SortedBy(ordered, Difficulty)
    requires forall q :: q in pool ==> q in ordered
    requires Words(again) <= Words(pool)
    requires r == Slice(TwoPasses(ordered, again, num), num)
    ensures forall q, p :: q in pool && q.word !in Words(r) && p in r ==> p.difficulty <= q.difficulty
  {
    var main := FirstUnique(ordered, {}, num);
    FirstPassFacts(ordered, num);
    if |main| < num {
      assert Words(pool) <= Words(main) by {
        forall w | w in Words(pool) ensures w in Words(main) {
          var k :| 0 <= k < |pool| && pool[k].word == w;
          assert pool[k] in pool;
          WordOf(ordered, pool[k]);
        }
      }
      var extra := FirstUnique(again, Words(main), num - |main|);
      FirstUniqueUnseen(again, Words(main), num - |main|);
      if extra != [] {
        WordOf(again, extra[0]);
        assert false;
      }
      assert TwoPasses(ordered, again, num) == main + [];
    }
    assert r == [] || r == main;
    EasiestFirst(ordered, num);
    forall q, p | q in pool && q.word !in Words(r) && p in r
      ensures p.difficulty <= q.difficulty
    {
      var j :| 0 <= j < |ordered| && ordered[j] == q;
    }
  }

  /** `sampleUniqueQuestions(num, mix)` over the bank `bank` (the source reads
      the constant `WORD_BANK`), with every `Math.random` draw taken from
      `rand`. The pool uses shuffle calls 0 .. |pool| - 1, the adaptive order
      call |pool| and the refill call |pool| + 1. */
  method SampleUniqueQuestions(bank: seq<Tier>, num: int, mix: Mix, rand: Random)
    returns (r: seq<Question>)
    ensures |r| == if num <= 0 then 0
                   else if num < |BankWords(bank)| then num else |BankWords(bank)|
    ensures UniqueWords(r)
    ensures forall q :: q in r ==> q in Pool(bank, rand)
    ensures forall k :: 0 <= k < |r| && !InMix(r[k].difficulty, mix)
              ==> MixWords(bank, mix) <= Words(r[..k])
    ensures num <= |MixWords(bank, mix)| ==> forall q :: q in r ==> InMix(q.difficulty, mix)
    ensures mix == Adaptive ==> SortedBy(r, Difficulty)
    ensures mix == Adaptive ==>
      forall q, p :: q in Pool(bank, rand) && q.word !in Words(r) && p in r ==> p.difficulty <= q.difficulty
    ensures (mix != Adaptive && 0 < num <= |MixWords(bank, mix)|) ==>
      r == FirstUnique(Filter(Pool(bank, rand), mix), {}, num) && Subseq(r, Pool(bank, rand))
    ensures var pool := Pool(bank, rand);
      r == Slice(TwoPasses(Ordered(pool, mix, rand, |pool|), Shuffle(pool, rand, |pool| + 1), num), num)
  {
    var pool := BuildPool(bank, rand);
    var ordered := Ordered(pool, mix, rand, |pool|);
    PoolWords(bank, rand, mix);
    SelectedWords(ordered, pool, mix);
    r := PickUnique(pool, ordered, num, mix, rand, |pool| + 1);
    var again := Shuffle(pool, rand, |pool| + 1);
    if mix == Adaptive {
      PermutedWords(again, pool);
      WalkKeepsEasiest(pool, ordered, again, num, r);
    } else if 0 < num <= |MixWords(bank, mix)| {
      WalkInOrder(pool, ordered, again, num, r);
    }
  }

  /** With enough headwords in the walked sequence, a result that is a
      subsequence of the pool comes out of a walked sequence that is one. */
  lemma WalkInOrder(pool: seq<Question>, ordered: seq<Question>, again: seq<Question>, num: int, r: seq<Question>)
    requires Subseq(ordered, pool) && 0 < num <= |Words(ordered)|
    requires r == Slice(TwoPasses(ordered, again, num), num)
    ensures r == FirstUnique(ordered, {}, num) && Subseq(r, pool)
  {
    WalkWithinMix(ordered, again, num);
    FirstUniqueSubseq(ordered, {}, num);
    SubseqTrans(r, ordered, pool);
  }
}
