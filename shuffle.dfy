/** The array helpers of the quiz engine: the stable sort that JavaScript's
    `Array.prototype.sort` performs with a numeric comparator, the random
    `shuffle` built on it, and `indexOf`. */
module Shuffling {

  /** The injected source of randomness: `rand(c, i)` is the value that
      `Math.random()` returned at the i-th draw of the c-th call of `shuffle`. */
  type Random = (nat, nat) -> real

  /** `s` is in non-decreasing order of `key`. */
  ghost predicate SortedBy<T>(s: seq<T>, key: T -> real) {
    forall i, j :: 0 <= i < j < |s| ==> key(s[i]) <= key(s[j])
  }

  /** The elements of `s` whose key is `v`, in their order in `s`. */
  function WithKey<T>(s: seq<T>, key: T -> real, v: real): (r: seq<T>)
    ensures |r| <= |s|
  {
    if s == [] then []
    else (if key(s[0]) == v then [s[0]] else []) + WithKey(s[1..], key, v)
  }

  /** `WithKey` keeps exactly the elements with key `v`. */
  lemma {:induction false} WithKeyMembers<T>(s: seq<T>, key: T -> real, v: real)
    ensures forall y :: y in WithKey(s, key, v) <==> y in s && key(y) == v
  {
    if s != [] {
      WithKeyMembers(s[1..], key, v);
      assert s == [s[0]] + s[1..];
    }
  }

  /** Inserts `x` in front of the first element of `s` whose key is not
      smaller than its own, so `x` stays ahead of the elements it ties with. */
  function Insert<T>(x: T, s: seq<T>, key: T -> real): (r: seq<T>)
    ensures |r| == |s| + 1
  {
    if s == [] || key(x) <= key(s[0]) then [x] + s
    else
      assert s == [s[0]] + s[1..];
      [s[0]] + Insert(x, s[1..], key)
  }

  /** Insertion adds `x` and loses nothing. */
  lemma {:induction false} InsertPermutes<T>(x: T, s: seq<T>, key: T -> real)
    ensures multiset(Insert(x, s, key)) == multiset{x} + multiset(s)
  {
    if s != [] && key(x) > key(s[0]) {
      InsertPermutes(x, s[1..], key);
      assert s == [s[0]] + s[1..];
    }
  }

  lemma {:induction false} InsertKeepsBound<T>(x: T, s: seq<T>, key: T -> real, b: real)
    requires b <= key(x)
    requires forall i :: 0 <= i < |s| ==> b <= key(s[i])
    ensures forall i :: 0 <= i < |Insert(x, s, key)| ==> b <= key(Insert(x, s, key)[i])
  {
    if s != [] && key(x) > key(s[0]) {
      InsertKeepsBound(x, s[1..], key, b);
    }
  }

  lemma {:induction false} InsertKeepsOrder<T>(x: T, s: seq<T>, key: T -> real)
    requires SortedBy(s, key)
    ensures SortedBy(Insert(x, s, key), key)
  {
    if s != [] && key(x) > key(s[0]) {
      var t := Insert(x, s[1..], key);
      InsertKeepsOrder(x, s[1..], key);
      InsertKeepsBound(x, s[1..], key, key(s[0]));
      assert Insert(x, s, key) == [s[0]] + t;
    }
  }

  /** Stable insertion sort by ascending `key`: the order the comparator
      `(a, b) => key(a) - key(b)` gives under a stable `Array.prototype.sort`. */
  function SortBy<T>(s: seq<T>, key: T -> real): (r: seq<T>)
    ensures multiset(r) == multiset(s)
    ensures SortedBy(r, key)
  {
    if s == [] then []
    else
      assert s == [s[0]] + s[1..];
      InsertKeepsOrder(s[0], SortBy(s[1..], key), key);
      InsertPermutes(s[0], SortBy(s[1..], key), key);
      Insert(s[0], SortBy(s[1..], key), key)
  }

  lemma WithKeyCons<T>(y: T, t: seq<T>, key: T -> real, v: real)
    ensures WithKey([y] + t, key, v) == (if key(y) == v then [y] else []) + WithKey(t, key, v)
  {
    assert ([y] + t)[1..] == t;
  }

  /** Putting `y`, whose key is below `x`'s, in front of both sides keeps
      the ties of `x` ahead of those of `rest`. */
  lemma TiesStep<T>(y: T, x: T, t: seq<T>, rest: seq<T>, key: T -> real, v: real)
    requires key(x) > key(y)
    requires WithKey(t, key, v) == (if key(x) == v then [x] else []) + WithKey(rest, key, v)
    ensures WithKey([y] + t, key, v)
         == (if key(x) == v then [x] else []) + WithKey([y] + rest, key, v)
  {
    WithKeyCons(y, t, key, v);
    WithKeyCons(y, rest, key, v);
    if key(y) == v {
      assert key(x) != v;
    }
  }

  lemma {:induction false} InsertKeepsTies<T>(x: T, s: seq<T>, key: T -> real, v: real)
    ensures WithKey(Insert(x, s, key), key, v)
         == (if key(x) == v then [x] else []) + WithKey(s, key, v)
  {
    if s == [] || key(x) <= key(s[0]) {
      WithKeyCons(x, s, key, v);
    } else {
      InsertKeepsTies(x, s[1..], key, v);
      TiesStep(s[0], x, Insert(x, s[1..], key), s[1..], key, v);
      assert s == [s[0]] + s[1..];
    }
  }

  /** The sort is stable: the elements sharing any one key keep their
      relative order. */
  lemma {:induction false} SortByIsStable<T>(s: seq<T>, key: T -> real, v: real)
    ensures WithKey(SortBy(s, key), key, v) == WithKey(s, key, v)
  {
    if s != [] {
      SortByIsStable(s[1..], key, v);
      InsertKeepsTies(s[0], SortBy(s[1..], key), key, v);
    }
  }

  /** The values of a sequence of (key, value) pairs. */
  function Values<X>(ps: seq<(real, X)>): (r: seq<X>)
    ensures |r| == |ps|
    ensures forall i :: 0 <= i < |ps| ==> r[i] == ps[i].1
  {
    seq(|ps|, i requires 0 <= i < |ps| => ps[i].1)
  }

  lemma ValuesOfCons<X>(p: (real, X), t: seq<(real, X)>)
    ensures Values([p] + t) == [p.1] + Values(t)
  {
    assert Values([p] + t) == [p.1] + Values(t);
  }

  lemma {:induction false} ValuesOfInsert<X>(p: (real, X), t: seq<(real, X)>, key: ((real, X)) -> real)
    ensures multiset(Values(Insert(p, t, key))) == multiset{p.1} + multiset(Values(t))
  {
    if t == [] || key(p) <= key(t[0]) {
      ValuesOfCons(p, t);
    } else {
      ValuesOfInsert(p, t[1..], key);
      ValuesOfCons(t[0], Insert(p, t[1..], key));
      ValuesOfCons(t[0], t[1..]);
      assert t == [t[0]] + t[1..];
    }
  }

  /** Sorting pairs permutes their values. */
  lemma {:induction false} ValuesOfSortBy<X>(s: seq<(real, X)>, key: ((real, X)) -> real)
    ensures multiset(Values(SortBy(s, key))) == multiset(Values(s))
  {
    if s != [] {
      ValuesOfSortBy(s[1..], key);
      ValuesOfInsert(s[0], SortBy(s[1..], key), key);
      ValuesOfCons(s[0], s[1..]);
      assert s == [s[0]] + s[1..];
    }
  }

  /** `arr` paired with the draws of shuffle call `call`. */
  function Decorate<X>(arr: seq<X>, rand: Random, call: nat): (r: seq<(real, X)>)
    ensures Values(r) == arr
  {
    seq(|arr|, i requires 0 <= i < |arr| => (rand(call, i), arr[i]))
  }

  /** `shuffle`: pair every element with a fresh random number, sort the pairs
      by that number and drop the numbers again. Whatever the draws, the
      result is a permutation of `arr`. */
  function Shuffle<X>(arr: seq<X>, rand: Random, call: nat): (r: seq<X>)
    ensures |r| == |arr|
    ensures multiset(r) == multiset(arr)
  {
    var pairs := Decorate(arr, rand, call);
    var sorted := SortBy(pairs, (p: (real, X)) => p.0);
    ValuesOfSortBy(pairs, (p: (real, X)) => p.0);
    assert |multiset(Values(sorted))| == |arr|;
    Values(sorted)
  }

  /** `indexOf`: the first position of `x` in `s`, or -1 when it is absent. */
  function IndexOf<X(==)>(s: seq<X>, x: X): (r: int)
    ensures r == -1 <==> x !in s
    ensures r != -1 ==> 0 <= r < |s| && s[r] == x && x !in s[..r]
  {
    if s == [] then -1
    else if s[0] == x then 0
    else
      var k := IndexOf(s[1..], x);
      assert s == [s[0]] + s[1..];
      if k == -1 then -1
      else
        assert s[..k + 1] == [s[0]] + s[1..][..k];
        k + 1
  }
}
