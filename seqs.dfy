/** Plain sequence functions standing for the lodash helpers the emitters use:
    `pull` (remove every occurrence), `uniq` (keep first occurrences) and `flatten`. */
module Seqs {

  /** No element occurs twice. */
  predicate Distinct<T(==,!new)>(s: seq<T>)
  {
    forall i, j :: 0 <= i < j < |s| ==> s[i] != s[j]
  }

  /** lodash `pull(array, ...values)`: every occurrence of every value is removed,
      the remaining elements keep their order. */
  function Pull<T(==,!new)>(s: seq<T>, xs: seq<T>): (r: seq<T>)
    ensures forall x {:trigger multiset(r)[x]} :: multiset(r)[x] == if x in xs then 0 else multiset(s)[x]
    ensures forall x :: x in r <==> x in s && x !in xs
  {
    if s == [] then []
    else if s[0] in xs then
      assert s == [s[0]] + s[1..];
      Pull(s[1..], xs)
    else
      assert s == [s[0]] + s[1..];
      [s[0]] + Pull(s[1..], xs)
  }

  /** lodash `uniq`: the first occurrence of each element, in order of first occurrence. */
  function Uniq<T(==,!new)>(s: seq<T>): (r: seq<T>)
    ensures Distinct(r)
    ensures forall x :: x in r <==> x in s
    ensures |r| <= |s|
  {
    if s == [] then []
    else
      var r := Uniq(s[..|s| - 1]);
      assert forall x :: x in s <==> x in s[..|s| - 1] || x == s[|s| - 1];
      if s[|s| - 1] in r then r else r + [s[|s| - 1]]
  }

  /** Index of the first occurrence of `x` in `s`. */
  function FirstIndex<T(==,!new)>(s: seq<T>, x: T): (i: nat)
    requires x in s
    ensures i < |s| && s[i] == x && x !in s[..i]
  {
    if s[0] == x then 0 else 1 + FirstIndex(s[1..], x)
  }

  /** `uniq` keeps elements in the order of their first occurrence. */
  lemma {:induction false} UniqFirstOccurrenceOrder<T(!new)>(s: seq<T>, i: nat, j: nat)
    requires i < j < |Uniq(s)|
    ensures FirstIndex(s, Uniq(s)[i]) < FirstIndex(s, Uniq(s)[j])
  {
    var p := s[..|s| - 1];
    var last := s[|s| - 1];
    var r := Uniq(p);
    FirstIndexOfPrefix(s, Uniq(s)[i]);
    FirstIndexOfPrefix(s, Uniq(s)[j]);
    if j < |r| {
      UniqFirstOccurrenceOrder(p, i, j);
    } else {
      assert Uniq(s)[j] == last && last !in p;
      assert Uniq(s)[i] in p;
    }
  }

  /** The first index is the only index holding `x` with no `x` before it. */
  lemma FirstIndexUnique<T(!new)>(s: seq<T>, x: T, i: nat)
    requires i < |s| && s[i] == x && x !in s[..i]
    ensures FirstIndex(s, x) == i
  {
  }

  /** The first index of `x` in `s` compared with its first index in `s` without its last element. */
  lemma FirstIndexOfPrefix<T(!new)>(s: seq<T>, x: T)
    requires |s| > 0 && x in s
    ensures x in s[..|s| - 1] ==> FirstIndex(s, x) == FirstIndex(s[..|s| - 1], x)
    ensures x !in s[..|s| - 1] ==> FirstIndex(s, x) == |s| - 1
  {
    var p := s[..|s| - 1];
    if x in p {
      var k := FirstIndex(p, x);
      assert s[..k] == p[..k];
      FirstIndexUnique(s, x, k);
    } else {
      FirstIndexUnique(s, x, |s| - 1);
    }
  }

  /** A sequence without duplicates is its own `uniq`. */
  lemma {:induction false} UniqOfDistinct<T(!new)>(s: seq<T>)
    requires Distinct(s)
    ensures Uniq(s) == s
  {
    if s != [] {
      var p := s[..|s| - 1];
      assert Distinct(p);
      UniqOfDistinct(p);
      assert s[|s| - 1] !in p;
      assert p + [s[|s| - 1]] == s;
    }
  }

  /** `xs` repeated `k` times. */
  function Times<T>(xs: seq<T>, k: nat): seq<T>
  {
    if k == 0 then [] else xs + Times(xs, k - 1)
  }

  /** Number of occurrences of `x` in `s`. */
  function Count<T(==,!new)>(s: seq<T>, x: T): (c: nat)
    ensures c == multiset(s)[x]
  {
    if s == [] then 0
    else
      assert s == [s[0]] + s[1..];
      (if s[0] == x then 1 else 0) + Count(s[1..], x)
  }

  /** Occurrences in a concatenation add up. */
  lemma CountAppend<T(!new)>(a: seq<T>, b: seq<T>, x: T)
    ensures Count(a + b, x) == Count(a, x) + Count(b, x)
  {
    assert multiset(a + b) == multiset(a) + multiset(b);
  }

  /** lodash `flatten` one level deep. */
  function Flatten<T(!new)>(ss: seq<seq<T>>): (r: seq<T>)
    ensures |r| == SumOfLengths(ss)
    ensures forall x :: x in r <==> exists i :: 0 <= i < |ss| && x in ss[i]
  {
    if ss == [] then []
    else
      var r := ss[0] + Flatten(ss[1..]);
      assert forall x :: (exists i :: 0 <= i < |ss| && x in ss[i]) <==>
        x in ss[0] || exists i :: 0 <= i < |ss[1..]| && x in ss[1..][i] by {
        forall x, i | 0 < i < |ss| && x in ss[i] ensures x in ss[1..][i - 1] { }
      }
      r
  }

  /** Removing the same values twice removes nothing more. */
  lemma {:induction false} PullTwice<T(!new)>(s: seq<T>, xs: seq<T>)
    ensures Pull(Pull(s, xs), xs) == Pull(s, xs)
  {
    if s != [] {
      PullTwice(s[1..], xs);
    }
  }

  /** The sum of the `.length` of every inner sequence. */
  function SumOfLengths<T>(ss: seq<seq<T>>): nat
  {
    if ss == [] then 0 else |ss[0]| + SumOfLengths(ss[1..])
  }

  /** The sum grows by the length of an inner sequence added at the end. */
  lemma {:induction false} SumOfLengthsSnoc<T>(ss: seq<seq<T>>, x: seq<T>)
    ensures SumOfLengths(ss + [x]) == SumOfLengths(ss) + |x|
  {
    if ss != [] {
      assert (ss + [x])[1..] == ss[1..] + [x];
      SumOfLengthsSnoc(ss[1..], x);
    }
  }

  /** Every inner sequence counts towards the sum. */
  lemma {:induction false} SumOfLengthsCovers<T>(ss: seq<seq<T>>, i: nat)
    requires i < |ss|
    ensures |ss[i]| <= SumOfLengths(ss)
  {
    if i > 0 {
      SumOfLengthsCovers(ss[1..], i - 1);
    }
  }

  /** Appending `xs` after `k` copies of it is prepending it. */
  lemma {:induction false} TimesCommute<T>(xs: seq<T>, k: nat)
    ensures Times(xs, k) + xs == xs + Times(xs, k)
  {
    if k > 0 {
      TimesCommute(xs, k - 1);
      calc {
        Times(xs, k) + xs;
        xs + (Times(xs, k - 1) + xs);
        xs + (xs + Times(xs, k - 1));
        xs + Times(xs, k);
      }
    }
  }

  /** `k` copies of `[y]` hold `y` exactly `k` times and nothing else. */
  lemma {:induction false} CountTimes<T(!new)>(y: T, k: nat, x: T)
    ensures Count(Times([y], k), x) == if x == y then k else 0
  {
    if k > 0 {
      CountTimes(y, k - 1, x);
      assert Times([y], k) == [y] + Times([y], k - 1);
    }
  }

  /** `pull` works element by element, so it distributes over concatenation. */
  lemma {:induction false} PullAppend<T(!new)>(a: seq<T>, b: seq<T>, xs: seq<T>)
    ensures Pull(a + b, xs) == Pull(a, xs) + Pull(b, xs)
  {
    if a != [] {
      assert (a + b)[1..] == a[1..] + b;
      PullAppend(a[1..], b, xs);
    } else {
      assert a + b == b;
    }
  }

  /** Pulling values that do not occur changes nothing. */
  lemma {:induction false} PullAbsent<T(!new)>(s: seq<T>, xs: seq<T>)
    requires forall x :: x in xs ==> x !in s
    ensures Pull(s, xs) == s
  {
    if s != [] {
      PullAbsent(s[1..], xs);
      assert s == [s[0]] + s[1..];
    }
  }

  /** Pulling one set of values and then another is pulling both at once. */
  lemma {:induction false} PullThenPull<T(!new)>(s: seq<T>, xs: seq<T>, ys: seq<T>)
    ensures Pull(Pull(s, xs), ys) == Pull(s, xs + ys)
  {
    if s != [] {
      PullThenPull(s[1..], xs, ys);
    }
  }

  /** Pulling `xs` out of copies of `xs` leaves nothing. */
  lemma {:induction false} PullTimes<T(!new)>(xs: seq<T>, k: nat)
    ensures Pull(Times(xs, k), xs) == []
  {
    if k > 0 {
      PullTimes(xs, k - 1);
      PullAppend(xs, Times(xs, k - 1), xs);
      PullCovered(xs, xs);
    }
  }

  /** Pulling every value of `s` leaves nothing. */
  lemma {:induction false} PullCovered<T(!new)>(s: seq<T>, xs: seq<T>)
    requires forall x :: x in s ==> x in xs
    ensures Pull(s, xs) == []
  {
    if s != [] {
      PullCovered(s[1..], xs);
    }
  }
}
