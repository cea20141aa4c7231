/**
 * Sequence helpers shared by the analytics modules: the JavaScript idioms the
 * app leans on (`Array.from(new Set(xs))`, a stable `Array.prototype.sort`,
 * truncating `%`, `reduce((a, b) => a + b, 0)`) stated once, with the facts
 * the other modules need about them.
 */
module Seqs {

  datatype Option<T> = None | Some(value: T)

  /** `xs.reduce((a, b) => a + b, 0)`, defined from the right end so that a
      left-to-right loop can extend it one element at a time. */
  function Sum(s: seq<int>): int
  {
    if |s| == 0 then 0 else Sum(s[..|s| - 1]) + s[|s| - 1]
  }

  lemma {:induction false} SumAppend(a: seq<int>, b: seq<int>)
    ensures Sum(a + b) == Sum(a) + Sum(b)
    decreases |b|
  {
    if |b| == 0 {
      assert a + b == a;
    } else {
      assert (a + b)[..|a + b| - 1] == a + b[..|b| - 1];
      SumAppend(a, b[..|b| - 1]);
    }
  }

  /** Sum of a sequence of reals (money amounts). */
  function SumReal(s: seq<real>): real
  {
    if |s| == 0 then 0.0 else SumReal(s[..|s| - 1]) + s[|s| - 1]
  }

  lemma {:induction false} SumRealAppend(a: seq<real>, b: seq<real>)
    ensures SumReal(a + b) == SumReal(a) + SumReal(b)
    decreases |b|
  {
    if |b| == 0 {
      assert a + b == a;
    } else {
      assert (a + b)[..|a + b| - 1] == a + b[..|b| - 1];
      SumRealAppend(a, b[..|b| - 1]);
    }
  }

  /** JavaScript's `n % m` on integers: the remainder truncates toward zero,
      so it takes the sign of `n` (Dafny's `%` is Euclidean). */
  function JsRem(n: int, m: int): (r: int)
    requires m > 0
    ensures -m < r < m
    ensures n >= 0 ==> r == n % m
    ensures n < 0 ==> r <= 0
  {
    if n >= 0 then n % m else -((-n) % m)
  }

  /** `s.map(f)`. */
  function MapSeq<T, U>(s: seq<T>, f: T -> U): (r: seq<U>)
    ensures |r| == |s|
    ensures forall i :: 0 <= i < |s| ==> r[i] == f(s[i])
  {
    if |s| == 0 then [] else MapSeq(s[..|s| - 1], f) + [f(s[|s| - 1])]
  }

  /** `Math.min(a, b)`. */
  function Min(a: int, b: int): int
  {
    if a <= b then a else b
  }

  /** `Math.max(a, b)`. */
  function Max(a: int, b: int): int
  {
    if a >= b then a else b
  }

  /** Concatenation of a sequence of groups, e.g. all mains of all draws. */
  function Flatten(groups: seq<seq<int>>): seq<int>
  {
    if |groups| == 0 then [] else Flatten(groups[..|groups| - 1]) + groups[|groups| - 1]
  }

  lemma {:induction false} FlattenSnoc(groups: seq<seq<int>>, i: nat)
    requires i < |groups|
    ensures Flatten(groups[..i + 1]) == Flatten(groups[..i]) + groups[i]
  {
    assert groups[..i + 1][..i] == groups[..i];
  }

  lemma {:induction false} FlattenLength(groups: seq<seq<int>>, len: nat)
    requires forall i :: 0 <= i < |groups| ==> |groups[i]| == len
    ensures |Flatten(groups)| == len * |groups|
    decreases |groups|
  {
    if |groups| > 0 {
      FlattenLength(groups[..|groups| - 1], len);
    }
  }

  lemma {:induction false} FlattenAllIn(groups: seq<seq<int>>, lo: int, hi: int)
    requires forall i :: 0 <= i < |groups| ==> AllIn(groups[i], lo, hi)
    ensures AllIn(Flatten(groups), lo, hi)
    decreases |groups|
  {
    if |groups| > 0 {
      FlattenAllIn(groups[..|groups| - 1], lo, hi);
    }
  }

  /** Every element lies in the closed interval `[lo, hi]`. */
  predicate AllIn(s: seq<int>, lo: int, hi: int)
  {
    forall i :: 0 <= i < |s| ==> lo <= s[i] <= hi
  }

  /** Number of elements of `s` inside the closed interval `[lo, hi]`. */
  function CountInRange(s: seq<int>, lo: int, hi: int): nat
  {
    if |s| == 0 then 0
    else CountInRange(s[..|s| - 1], lo, hi) + (if lo <= s[|s| - 1] <= hi then 1 else 0)
  }

  /** `counts[lo] + ... + counts[hi]` where `counts[n]` is the number of times n occurs in `s`. */
  function SumOfCounts(s: seq<int>, lo: int, hi: int): nat
    decreases hi - lo
  {
    if hi < lo then 0 else SumOfCounts(s, lo, hi - 1) + multiset(s)[hi]
  }

  lemma {:induction false} SumOfCountsSnoc(s: seq<int>, x: int, lo: int, hi: int)
    ensures SumOfCounts(s + [x], lo, hi) == SumOfCounts(s, lo, hi) + (if lo <= x <= hi then 1 else 0)
    decreases hi - lo
  {
    if hi >= lo {
      SumOfCountsSnoc(s, x, lo, hi - 1);
    }
  }

  /** A tally over the buckets lo..hi adds up to the number of values that fall into them:
      values outside the buckets are dropped, nothing is counted twice. */
  lemma {:induction false} SumOfCountsIsCountInRange(s: seq<int>, lo: int, hi: int)
    ensures SumOfCounts(s, lo, hi) == CountInRange(s, lo, hi)
    decreases |s|
  {
    if |s| == 0 {
      SumOfCountsEmpty(lo, hi);
    } else {
      var init := s[..|s| - 1];
      assert s == init + [s[|s| - 1]];
      SumOfCountsIsCountInRange(init, lo, hi);
      SumOfCountsSnoc(init, s[|s| - 1], lo, hi);
    }
  }

  lemma {:induction false} SumOfCountsEmpty(lo: int, hi: int)
    ensures SumOfCounts([], lo, hi) == 0
    decreases hi - lo
  {
    if hi >= lo {
      SumOfCountsEmpty(lo, hi - 1);
    }
  }

  lemma {:induction false} CountInRangeAll(s: seq<int>, lo: int, hi: int)
    requires AllIn(s, lo, hi)
    ensures CountInRange(s, lo, hi) == |s|
    decreases |s|
  {
    if |s| > 0 {
      CountInRangeAll(s[..|s| - 1], lo, hi);
    }
  }

  ghost predicate Distinct<T>(s: seq<T>)
  {
    forall i, j :: 0 <= i < j < |s| ==> s[i] != s[j]
  }

  ghost predicate StrictlyIncreasing(s: seq<int>)
  {
    forall i, j :: 0 <= i < j < |s| ==> s[i] < s[j]
  }

  /** `Array.from(new Set(xs))`: the distinct values in order of first occurrence. */
  function Dedup<T(==,!new)>(xs: seq<T>): (r: seq<T>)
    ensures Distinct(r)
    ensures forall x :: x in r <==> x in xs
    ensures |r| <= |xs|
  {
    if |xs| == 0 then []
    else
      var p := Dedup(xs[..|xs| - 1]);
      if xs[|xs| - 1] in p then p else p + [xs[|xs| - 1]]
  }

  /** Appending a value to the input appends it to the result unless already seen. */
  lemma {:induction false} DedupSnoc<T(!new)>(xs: seq<T>, x: T)
    ensures Dedup(xs + [x]) == if x in Dedup(xs) then Dedup(xs) else Dedup(xs) + [x]
  {
    assert (xs + [x])[..|xs|] == xs;
  }

  /** A sequence without repeats is its own de-duplication; in particular
      de-duplicating twice is de-duplicating once. */
  lemma {:induction false} DedupDistinct<T(!new)>(xs: seq<T>)
    requires Distinct(xs)
    ensures Dedup(xs) == xs
  {
    if |xs| > 0 {
      var init, last := xs[..|xs| - 1], xs[|xs| - 1];
      DedupDistinct(init);
      assert last !in init by {
        forall k | 0 <= k < |init|
          ensures init[k] != last
        {
          assert xs[k] == init[k];
        }
      }
      assert xs == init + [last];
    }
  }

  /** A value typed twice at the front is kept once, in its place. */
  lemma {:induction false} DedupRepeatedHead<T(!new)>(a: T, xs: seq<T>)
    requires |xs| > 0 && xs[0] == a
    ensures Dedup([a] + xs) == Dedup(xs)
  {
    if |xs| == 1 {
      assert xs == [a];
      assert Dedup([a]) == [a] by {
        DedupSnoc([], a);
        assert [] + [a] == [a];
      }
      assert Dedup([a, a]) == [a] by {
        DedupSnoc([a], a);
        assert [a] + [a] == [a, a];
      }
      assert [a] + xs == [a, a];
    } else {
      var init, last := xs[..|xs| - 1], xs[|xs| - 1];
      var p := Dedup(init);
      assert Dedup([a] + init) == p by {
        DedupRepeatedHead(a, init);
      }
      assert Dedup([a] + xs) == (if last in p then p else p + [last]) by {
        assert [a] + xs == ([a] + init) + [last];
        DedupSnoc([a] + init, last);
      }
      assert Dedup(xs) == (if last in p then p else p + [last]) by {
        assert xs == init + [last];
        DedupSnoc(init, last);
      }
    }
  }

  /** Insert `x` into a strictly increasing sequence, dropping it if present. */
  function InsertUnique(x: int, s: seq<int>): (r: seq<int>)
    requires StrictlyIncreasing(s)
    ensures StrictlyIncreasing(r)
    ensures forall y :: y in r <==> y in s || y == x
    ensures |r| <= |s| + 1
    ensures x in s ==> r == s
  {
    if |s| == 0 then [x]
    else if s[|s| - 1] < x then s + [x]
    else if s[|s| - 1] == x then s
    else
      var init, last := s[..|s| - 1], s[|s| - 1];
      var r' := InsertUnique(x, init);
      InsertUniqueBelow(x, init, last, r');
      assert s == init + [last];
      r' + [last]
  }

  /** The recursive case of `InsertUnique`: x goes in before the last element. */
  lemma {:induction false} InsertUniqueBelow(x: int, init: seq<int>, last: int, r': seq<int>)
    requires StrictlyIncreasing(init + [last]) && x < last
    requires StrictlyIncreasing(r') && forall y :: y in r' <==> y in init || y == x
    ensures StrictlyIncreasing(r' + [last])
    ensures forall y :: y in r' + [last] <==> y in init + [last] || y == x
  {
    assert forall y :: y in init ==> y < last by {
      forall y | y in init
        ensures y < last
      {
        var k :| 0 <= k < |init| && init[k] == y;
        assert (init + [last])[k] == y && (init + [last])[|init|] == last;
      }
    }
    assert forall k :: 0 <= k < |r'| ==> r'[k] < last by {
      forall k | 0 <= k < |r'|
        ensures r'[k] < last
      {
        assert r'[k] in r';
      }
    }
  }

  /** `Array.from(new Set(xs)).sort((a, b) => a - b)`: the distinct values, ascending. */
  function SortedUnique(xs: seq<int>): (r: seq<int>)
    ensures StrictlyIncreasing(r)
    ensures forall x :: x in r <==> x in xs
    ensures |r| <= |xs|
  {
    if |xs| == 0 then [] else InsertUnique(xs[|xs| - 1], SortedUnique(xs[..|xs| - 1]))
  }

  ghost predicate SortedBy<T>(s: seq<T>, key: T -> real)
  {
    forall i, j :: 0 <= i < j < |s| ==> key(s[i]) <= key(s[j])
  }

  /** Insert `x` after every element whose key is at most `key(x)`: the step of a
      stable insertion sort. */
  function InsertBy<T>(x: T, s: seq<T>, key: T -> real): (r: seq<T>)
    ensures |r| == |s| + 1
  {
    if |s| == 0 then [x]
    else if key(s[|s| - 1]) <= key(x) then s + [x]
    else InsertBy(x, s[..|s| - 1], key) + [s[|s| - 1]]
  }

  lemma {:induction false} InsertByCorrect<T>(x: T, s: seq<T>, key: T -> real)
    requires SortedBy(s, key)
    ensures SortedBy(InsertBy(x, s, key), key)
    ensures multiset(InsertBy(x, s, key)) == multiset(s) + multiset{x}
    decreases |s|
  {
    var r := InsertBy(x, s, key);
    if |s| == 0 {
    } else if key(s[|s| - 1]) <= key(x) {
      SortedBySnoc(s, x, key);
    } else {
      var init, last := s[..|s| - 1], s[|s| - 1];
      assert s == init + [last];
      var r' := InsertBy(x, init, key);
      InsertByCorrect(x, init, key);
      forall k | 0 <= k < |r'|
        ensures key(r'[k]) <= key(last)
      {
        assert r'[k] in multiset(r');
        if r'[k] != x {
          assert r'[k] in multiset(init);
        }
      }
      SortedBySnoc(r', last, key);
    }
  }

  lemma {:induction false} SortedBySnoc<T>(s: seq<T>, x: T, key: T -> real)
    requires SortedBy(s, key)
    requires forall k :: 0 <= k < |s| ==> key(s[k]) <= key(x)
    ensures SortedBy(s + [x], key)
  {
  }

  /** The stable `Array.prototype.sort` with a numeric comparator `key(a) - key(b)`. */
  function SortBy<T>(s: seq<T>, key: T -> real): (r: seq<T>)
    ensures SortedBy(r, key)
    ensures multiset(r) == multiset(s)
    ensures |r| == |s|
  {
    if |s| == 0 then []
    else
      var init, last := s[..|s| - 1], s[|s| - 1];
      InsertByCorrect(last, SortBy(init, key), key);
      assert s == init + [last];
      InsertBy(last, SortBy(init, key), key)
  }

  /** Elements with equal keys appear in increasing `rank`. */
  ghost predicate TiesRanked<T>(s: seq<T>, key: T -> real, rank: T -> int)
  {
    forall i, j :: 0 <= i < j < |s| && key(s[i]) == key(s[j]) ==> rank(s[i]) < rank(s[j])
  }

  /** Inserting an element that outranks every element keeps ties in rank order. */
  lemma {:induction false} InsertByStable<T>(x: T, s: seq<T>, key: T -> real, rank: T -> int)
    requires SortedBy(s, key) && TiesRanked(s, key, rank)
    requires forall e :: e in s ==> rank(e) < rank(x)
    ensures TiesRanked(InsertBy(x, s, key), key, rank)
    decreases |s|
  {
    if |s| == 0 {
    } else if key(s[|s| - 1]) <= key(x) {
      TiesRankedSnoc(s, x, key, rank);
    } else {
      var init, last := s[..|s| - 1], s[|s| - 1];
      assert s == init + [last];
      var r' := InsertBy(x, init, key);
      InsertByStable(x, init, key, rank);
      InsertByCorrect(x, init, key);
      forall i | 0 <= i < |r'| && key(r'[i]) == key(last)
        ensures rank(r'[i]) < rank(last)
      {
        assert r'[i] in multiset(r');
        TieBeforeLast(s, r'[i], key, rank);
      }
      TiesRankedSnoc(r', last, key, rank);
    }
  }

  /** An element before the last one with the same key ranks below it. */
  lemma {:induction false} TieBeforeLast<T>(s: seq<T>, e: T, key: T -> real, rank: T -> int)
    requires |s| > 0 && TiesRanked(s, key, rank)
    requires e in multiset(s[..|s| - 1]) && key(e) == key(s[|s| - 1])
    ensures rank(e) < rank(s[|s| - 1])
  {
    var k :| 0 <= k < |s| - 1 && s[..|s| - 1][k] == e;
    assert s[k] == e;
  }

  lemma {:induction false} TiesRankedSnoc<T>(t: seq<T>, y: T, key: T -> real, rank: T -> int)
    requires TiesRanked(t, key, rank)
    requires forall i :: 0 <= i < |t| && key(t[i]) == key(y) ==> rank(t[i]) < rank(y)
    ensures TiesRanked(t + [y], key, rank)
  {
  }

  /** `SortBy` is stable: elements given in increasing rank keep that order
      among equal keys. */
  lemma {:induction false} SortByStable<T>(s: seq<T>, key: T -> real, rank: T -> int)
    requires forall i, j :: 0 <= i < j < |s| ==> rank(s[i]) < rank(s[j])
    ensures TiesRanked(SortBy(s, key), key, rank)
    decreases |s|
  {
    if |s| > 0 {
      var init, last := s[..|s| - 1], s[|s| - 1];
      var sorted := SortBy(init, key);
      SortByStable(init, key, rank);
      forall e | e in sorted
        ensures rank(e) < rank(last)
      {
        assert e in multiset(sorted);
        assert e in multiset(init);
        var k :| 0 <= k < |init| && init[k] == e;
        assert s[k] == e;
      }
      InsertByStable(last, sorted, key, rank);
    }
  }

  /** Two sequences with the same multiset have the same elements. */
  lemma {:induction false} SameElements<T>(s: seq<T>, t: seq<T>)
    requires multiset(s) == multiset(t)
    ensures forall e :: e in s <==> e in t
  {
    forall e
      ensures e in s <==> e in t
    {
      assert e in s <==> e in multiset(s);
      assert e in t <==> e in multiset(t);
    }
  }

  /** In a sequence sorted by key, an element after the first k has a key no
      smaller than any of the first k. */
  lemma {:induction false} SortedPrefix<T>(s: seq<T>, key: T -> real, k: nat)
    requires SortedBy(s, key) && k <= |s|
    ensures forall e, f :: e in s && e !in s[..k] && f in s[..k] ==> key(f) <= key(e)
  {
    forall e, f | e in s && e !in s[..k] && f in s[..k]
      ensures key(f) <= key(e)
    {
      var i :| 0 <= i < |s| && s[i] == e;
      var j :| 0 <= j < k && s[..k][j] == f;
      assert i >= k;
    }
  }

  lemma {:induction false} AppendAssoc<T>(a: seq<T>, b: seq<T>, c: seq<T>)
    ensures a + (b + c) == a + b + c
  {
  }

  /** Extending a prefix by one element adds that element once to its multiset. */
  lemma {:induction false} PrefixMultisetStep<T>(s: seq<T>, q: nat)
    requires q < |s|
    ensures multiset(s[..q + 1]) == multiset(s[..q]) + multiset{s[q]}
  {
    assert s[..q + 1] == s[..q] + [s[q]];
  }

  /** A sequence in which no value occurs twice is distinct. */
  lemma {:induction false} DistinctOfMultiset<T>(s: seq<T>)
    requires forall x :: multiset(s)[x] <= 1
    ensures Distinct(s)
  {
    forall i, j | 0 <= i < j < |s|
      ensures s[i] != s[j]
    {
      assert s == s[..j] + s[j..];
      assert s[i] in multiset(s[..j]) && s[j] in multiset(s[j..]);
      assert multiset(s)[s[j]] == multiset(s[..j])[s[j]] + multiset(s[j..])[s[j]];
      assert multiset(s[..j])[s[i]] >= 1;
    }
  }

  /** Ascending numeric sort of integers. */
  function SortInts(s: seq<int>): (r: seq<int>)
    ensures forall i, j :: 0 <= i < j < |r| ==> r[i] <= r[j]
    ensures multiset(r) == multiset(s)
    ensures |r| == |s|
  {
    var r := SortBy(s, (x: int) => x as real);
    assert SortedBy(r, (x: int) => x as real);
    r
  }

  lemma {:induction false} StrictlyIncreasingBounds(s: seq<int>, i: nat)
    requires StrictlyIncreasing(s) && i < |s|
    ensures s[0] <= s[i] <= s[|s| - 1]
  {
  }

  /** A permutation of a sequence without repeats has no repeats. */
  lemma {:induction false} PermutationDistinct<T>(s: seq<T>, t: seq<T>)
    requires multiset(s) == multiset(t) && Distinct(t)
    ensures Distinct(s)
  {
    forall x
      ensures multiset(s)[x] <= 1
    {
      MultisetOfDistinct(t, x);
    }
    DistinctOfMultiset(s);
  }

  /** Membership in a sequence of distinct elements determines its index. */
  lemma {:induction false} MultisetOfDistinct<T>(s: seq<T>, x: T)
    requires Distinct(s)
    ensures multiset(s)[x] == if x in s then 1 else 0
  {
    if |s| > 0 {
      var init := s[..|s| - 1];
      assert s == init + [s[|s| - 1]];
      MultisetOfDistinct(init, x);
    }
  }
}
