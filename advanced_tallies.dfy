/**
 * The counting metrics of the advanced analytics view
 * (apps/web/components/AdvancedAnalytics.tsx): number frequencies, remainder
 * buckets, the per-draw features (low/high, odd/even, sum, range), the rolling
 * mean of the draw sums and the position-by-number matrix.
 */
module AdvancedTallies {
  import opened Seqs
  import opened Core
  import opened Tally

  /** `computeFrequencies(draws, domainMax)`: bar n counts main n among all draws,
      only values in `1..domainMax` are counted. */
  method ComputeFrequencies(draws: seq<Draw>, domainMax: nat) returns (items: seq<FreqPoint>)
    ensures |items| == domainMax
    ensures forall i :: 0 <= i < domainMax ==> items[i] == FreqPoint(i + 1, multiset(AllMains(draws))[i + 1])
    ensures SumFreqs(items) == CountInRange(AllMains(draws), 1, domainMax)
  {
    var freq := CountFreq(MainGroups(draws), domainMax);
    items := FreqPoints(freq, domainMax);
    FreqTotal(items, AllMains(draws));
  }

  // ---------------------------------------------------------------------------
  // Remainder buckets

  /** Number of values whose JavaScript remainder modulo m is r. */
  function RemCount(xs: seq<int>, m: int, r: int): nat
    requires m > 0
  {
    if |xs| == 0 then 0
    else RemCount(xs[..|xs| - 1], m, r) + (if JsRem(xs[|xs| - 1], m) == r then 1 else 0)
  }

  /** Number of values whose remainder is a valid bucket index: a negative
      remainder indexes a non-existent bucket and is lost. */
  function NonNegRemCount(xs: seq<int>, m: int): (c: nat)
    requires m > 0
    ensures c <= |xs|
    ensures (forall i :: 0 <= i < |xs| ==> xs[i] >= 0) ==> c == |xs|
  {
    if |xs| == 0 then 0
    else NonNegRemCount(xs[..|xs| - 1], m) + (if JsRem(xs[|xs| - 1], m) >= 0 then 1 else 0)
  }

  /** `RemCount(xs, m, 0) + ... + RemCount(xs, m, k - 1)`. */
  function BucketTotal(xs: seq<int>, m: int, k: int): nat
    requires m > 0
    decreases k
  {
    if k <= 0 then 0 else BucketTotal(xs, m, k - 1) + RemCount(xs, m, k - 1)
  }

  lemma {:induction false} BucketTotalSnoc(xs: seq<int>, x: int, m: int, k: int)
    requires m > 0
    ensures BucketTotal(xs + [x], m, k) == BucketTotal(xs, m, k) + (if 0 <= JsRem(x, m) < k then 1 else 0)
    decreases k
  {
    if k > 0 {
      BucketTotalSnoc(xs, x, m, k - 1);
      assert (xs + [x])[..|xs|] == xs;
    }
  }

  /** The m buckets together hold every value whose remainder is not negative. */
  lemma {:induction false} BucketsCover(xs: seq<int>, m: int)
    requires m > 0
    ensures BucketTotal(xs, m, m) == NonNegRemCount(xs, m)
    decreases |xs|
  {
    if |xs| == 0 {
      EmptyBuckets(m, m);
    } else {
      var init := xs[..|xs| - 1];
      assert xs == init + [xs[|xs| - 1]];
      BucketsCover(init, m);
      BucketTotalSnoc(init, xs[|xs| - 1], m, m);
    }
  }

  /** The inner loop of `computeModulo` over one draw's mains:
      `mod[n % modBase]++`, skipped when the remainder is negative. */
  method CountRems(cnt: array<nat>, g: seq<int>, ghost seen: seq<int>)
    requires cnt.Length > 0
    requires forall r :: 0 <= r < cnt.Length ==> cnt[r] == RemCount(seen, cnt.Length, r)
    modifies cnt
    ensures forall r :: 0 <= r < cnt.Length ==> cnt[r] == RemCount(seen + g, cnt.Length, r)
  {
    var j := 0;
    assert seen + g[..0] == seen;
    while j < |g|
      invariant 0 <= j <= |g|
      invariant forall r :: 0 <= r < cnt.Length ==> cnt[r] == RemCount(seen + g[..j], cnt.Length, r)
    {
      var b := JsRem(g[j], cnt.Length);
      assert g[..j + 1] == g[..j] + [g[j]];
      assert (seen + g[..j + 1])[..|seen + g[..j]|] == seen + g[..j];
      if b >= 0 {
        cnt[b] := cnt[b] + 1;
      }
      j := j + 1;
    }
    assert g[..|g|] == g;
  }

  lemma {:induction false} EmptyBuckets(m: int, k: int)
    requires m > 0
    ensures BucketTotal([], m, k) == 0
    decreases k
  {
    if k > 0 {
      EmptyBuckets(m, k - 1);
    }
  }

  lemma {:induction false} BucketPrefixTotal(points: seq<FreqPoint>, xs: seq<int>, m: int, k: nat)
    requires m > 0 && k <= |points|
    requires forall r :: 0 <= r < |points| ==> points[r].freq == RemCount(xs, m, r)
    ensures SumFreqs(points[..k]) == BucketTotal(xs, m, k)
  {
    if k > 0 {
      BucketPrefixTotal(points, xs, m, k - 1);
      assert points[..k][..k - 1] == points[..k - 1];
    }
  }

  /** `computeModulo(draws, modBase)`: bucket r counts the mains n with
      `n % modBase === r`. With modBase 0 there are no buckets. The buckets add
      up to the number of mains with a non-negative remainder, which is all of
      them when no main is negative. */
  method ComputeModulo(draws: seq<Draw>, modBase: nat) returns (out: seq<FreqPoint>)
    ensures |out| == modBase
    ensures modBase > 0 ==> forall r :: 0 <= r < modBase ==> out[r] == FreqPoint(r, RemCount(AllMains(draws), modBase, r))
    ensures modBase > 0 ==> SumFreqs(out) == NonNegRemCount(AllMains(draws), modBase)
  {
    if modBase == 0 {
      return [];
    }
    var groups := MainGroups(draws);
    var cnt := new nat[modBase](_ => 0);
    var i := 0;
    while i < |groups|
      invariant 0 <= i <= |groups|
      invariant forall r :: 0 <= r < modBase ==> cnt[r] == RemCount(Flatten(groups[..i]), modBase, r)
    {
      FlattenSnoc(groups, i);
      CountRems(cnt, groups[i], Flatten(groups[..i]));
      i := i + 1;
    }
    assert groups[..|groups|] == groups;
    out := seq(modBase, r requires 0 <= r < modBase reads cnt => FreqPoint(r, cnt[r]));
    BucketPrefixTotal(out, AllMains(draws), modBase, modBase);
    assert out[..modBase] == out;
    BucketsCover(AllMains(draws), modBase);
  }

  /** `computeLastDigit`: the ten buckets of `n % 10`. */
  method ComputeLastDigit(draws: seq<Draw>) returns (out: seq<FreqPoint>)
    ensures |out| == 10
    ensures forall d :: 0 <= d < 10 ==> out[d] == FreqPoint(d, RemCount(AllMains(draws), 10, d))
    ensures SumFreqs(out) == NonNegRemCount(AllMains(draws), 10)
  {
    out := ComputeModulo(draws, 10);
  }

  // ---------------------------------------------------------------------------
  // Per-draw features

  datatype LowHigh = LowHigh(date: string, low: nat, high: nat)
  datatype OddEven = OddEven(date: string, odd: nat, even: nat)
  datatype DrawSum = DrawSum(date: string, sum: int)
  datatype DrawRange = DrawRange(date: string, range: int)

  /** `m.filter(n => n <= t).length`. */
  function CountAtMost(xs: seq<int>, t: int): (c: nat)
    ensures c <= |xs|
  {
    if |xs| == 0 then 0 else CountAtMost(xs[..|xs| - 1], t) + (if xs[|xs| - 1] <= t then 1 else 0)
  }

  function CountAbove(xs: seq<int>, t: int): nat
  {
    if |xs| == 0 then 0 else CountAbove(xs[..|xs| - 1], t) + (if xs[|xs| - 1] > t then 1 else 0)
  }

  lemma {:induction false} AtMostAbovePartition(xs: seq<int>, t: int)
    ensures CountAtMost(xs, t) + CountAbove(xs, t) == |xs|
  {
    if |xs| > 0 {
      AtMostAbovePartition(xs[..|xs| - 1], t);
    }
  }

  /** `m.filter(n => n % 2 === 1).length`: a negative odd main has remainder -1
      and is not counted. */
  function OddCount(xs: seq<int>): (c: nat)
    ensures c <= |xs|
  {
    if |xs| == 0 then 0 else OddCount(xs[..|xs| - 1]) + (if JsRem(xs[|xs| - 1], 2) == 1 then 1 else 0)
  }

  function EvenCount(xs: seq<int>): nat
  {
    if |xs| == 0 then 0 else EvenCount(xs[..|xs| - 1]) + (if xs[|xs| - 1] % 2 == 0 then 1 else 0)
  }

  lemma {:induction false} OddEvenPartition(xs: seq<int>)
    requires forall i :: 0 <= i < |xs| ==> xs[i] >= 0
    ensures OddCount(xs) + EvenCount(xs) == |xs|
  {
    if |xs| > 0 {
      OddEvenPartition(xs[..|xs| - 1]);
    }
  }

  function LowHighOf(d: Draw): LowHigh
  {
    var low := CountAtMost(d.z, 25);
    LowHigh(d.drawDate, low, |d.z| - low)
  }

  /** `computeLowHigh`: one row per draw; `high` is the number of mains above 25. */
  function ComputeLowHigh(draws: seq<Draw>): (rows: seq<LowHigh>)
    ensures |rows| == |draws|
    ensures forall i :: 0 <= i < |draws| ==>
      rows[i].date == draws[i].drawDate && rows[i].low + rows[i].high == |draws[i].z|
      && rows[i].low == CountAtMost(draws[i].z, 25) && rows[i].high == CountAbove(draws[i].z, 25)
  {
    var rows := seq(|draws|, i requires 0 <= i < |draws| => LowHighOf(draws[i]));
    forall i | 0 <= i < |draws|
      ensures rows[i].high == CountAbove(draws[i].z, 25)
    {
      AtMostAbovePartition(draws[i].z, 25);
    }
    rows
  }

  function OddEvenOf(d: Draw): OddEven
  {
    var odd := OddCount(d.z);
    OddEven(d.drawDate, odd, |d.z| - odd)
  }

  /** `computeOddEven`: one row per draw; for non-negative mains `even` is the
      number of even mains. */
  function ComputeOddEven(draws: seq<Draw>): (rows: seq<OddEven>)
    ensures |rows| == |draws|
    ensures forall i :: 0 <= i < |draws| ==>
      rows[i].date == draws[i].drawDate && rows[i].odd + rows[i].even == |draws[i].z|
      && rows[i].odd == OddCount(draws[i].z)
    ensures forall i :: 0 <= i < |draws| && (forall j :: 0 <= j < |draws[i].z| ==> draws[i].z[j] >= 0) ==>
      rows[i].even == EvenCount(draws[i].z)
  {
    var rows := seq(|draws|, i requires 0 <= i < |draws| => OddEvenOf(draws[i]));
    forall i | 0 <= i < |draws| && (forall j :: 0 <= j < |draws[i].z| ==> draws[i].z[j] >= 0)
      ensures rows[i].even == EvenCount(draws[i].z)
    {
      OddEvenPartition(draws[i].z);
    }
    rows
  }

  /** `computeSums`: one row per draw with the sum of its mains. */
  function ComputeSums(draws: seq<Draw>): (rows: seq<DrawSum>)
    ensures |rows| == |draws|
    ensures forall i :: 0 <= i < |draws| ==> rows[i] == DrawSum(draws[i].drawDate, Sum(draws[i].z))
  {
    seq(|draws|, i requires 0 <= i < |draws| => DrawSum(draws[i].drawDate, Sum(draws[i].z)))
  }

  function SumSeries(rows: seq<DrawSum>): (r: seq<int>)
    ensures |r| == |rows|
    ensures forall i :: 0 <= i < |rows| ==> r[i] == rows[i].sum
  {
    seq(|rows|, i requires 0 <= i < |rows| => rows[i].sum)
  }

  /** The per-draw sums add up to the sum of all mains. */
  lemma {:induction false} SumsAddUp(draws: seq<Draw>)
    ensures Sum(SumSeries(ComputeSums(draws))) == Sum(AllMains(draws))
  {
    if |draws| > 0 {
      var init := draws[..|draws| - 1];
      SumsAddUp(init);
      assert SumSeries(ComputeSums(draws))[..|draws| - 1] == SumSeries(ComputeSums(init));
      assert MainGroups(draws)[..|draws| - 1] == MainGroups(init);
      SumAppend(AllMains(init), draws[|draws| - 1].z);
    }
  }

  /** Bounded values give a bounded sum: a well-formed draw sums to 5..250. */
  lemma {:induction false} SumBounds(xs: seq<int>, lo: int, hi: int)
    requires AllIn(xs, lo, hi)
    ensures lo * |xs| <= Sum(xs) <= hi * |xs|
  {
    if |xs| > 0 {
      var n := |xs| - 1;
      SumBounds(xs[..n], lo, hi);
      assert lo <= xs[n] <= hi;
      assert lo * |xs| == lo * n + lo && hi * |xs| == hi * n + hi;
    }
  }

  /** `s.length ? s[s.length - 1] - s[0] : 0` over the sorted distinct mains. */
  function RangeOf(z: seq<int>): (r: int)
    ensures r >= 0
    ensures |z| == 0 ==> r == 0
    ensures |z| > 0 ==> (forall i, j :: 0 <= i < |z| && 0 <= j < |z| ==> z[i] - z[j] <= r)
    ensures |z| > 0 ==> exists i, j :: 0 <= i < |z| && 0 <= j < |z| && z[i] - z[j] == r
  {
    var s := SortedUnique(z);
    if |s| == 0 then
      0
    else
      assert s[0] in z && s[|s| - 1] in z;
      StrictlyIncreasingBounds(s, |s| - 1);
      forall i | 0 <= i < |z|
        ensures s[0] <= z[i] <= s[|s| - 1]
      {
        assert z[i] in s;
        var k :| 0 <= k < |s| && s[k] == z[i];
        StrictlyIncreasingBounds(s, k);
      }
      s[|s| - 1] - s[0]
  }

  /** `computeRanges`: one row per draw with max - min of its mains. */
  function ComputeRanges(draws: seq<Draw>): (rows: seq<DrawRange>)
    ensures |rows| == |draws|
    ensures forall i :: 0 <= i < |draws| ==> rows[i] == DrawRange(draws[i].drawDate, RangeOf(draws[i].z))
  {
    seq(|draws|, i requires 0 <= i < |draws| => DrawRange(draws[i].drawDate, RangeOf(draws[i].z)))
  }

  // ---------------------------------------------------------------------------
  // Rolling mean

  /** `rollingMean(arr, w)`: entry i is undefined until a full window of w values
      ends at i, then the mean of those w values. The view calls it with
      `w = min(50, arr.length)` and `w = min(100, arr.length)`, so w is positive
      whenever there are values. */
  method RollingMean(arr: seq<int>, w: int) returns (out: seq<Option<real>>)
    requires w >= 1 || |arr| == 0
    ensures |out| == |arr|
    ensures forall i :: 0 <= i < |arr| && i < w - 1 ==> out[i] == None
    ensures forall i :: 0 <= i < |arr| && i >= w - 1 ==> out[i] == Some(Mean(Sum(arr[i - w + 1..i + 1]), w))
  {
    out := seq(|arr|, _ => None);
    if |arr| == 0 {
      // No values: the loop would not run (and w may then be 0).
      return;
    }
    var acc := 0;
    var i := 0;
    RollStart(arr, w, out);
    while i < |arr|
      invariant RollState(arr, w, i, acc, out)
    {
      ghost var prev := acc;
      acc := acc + arr[i];
      if i >= w {
        acc := acc - arr[i - w];
      }
      RollStep(arr, w, i, prev, acc, out);
      if i >= w - 1 {
        out := out[i := Some(Mean(acc, w))];
      }
      i := i + 1;
    }
    RollEnd(arr, w, i, acc, out);
  }

  /** The state of that loop after i values: the accumulator holds the current
      window's sum and the means so far are written. */
  ghost predicate RollState(arr: seq<int>, w: int, i: nat, acc: int, out: seq<Option<real>>)
  {
    i <= |arr| && AccIs(arr, w, i, acc) && MeansSoFar(out, arr, w, i)
  }

  lemma {:induction false} RollStep(arr: seq<int>, w: int, i: nat, acc: int, acc': int, out: seq<Option<real>>)
    requires w >= 1 && i < |arr| && RollState(arr, w, i, acc, out)
    requires acc' == acc + arr[i] - (if i >= w then arr[i - w] else 0)
    ensures RollState(arr, w, i + 1, acc', if i >= w - 1 then out[i := Some(Mean(acc', w))] else out)
  {
    AccStep(arr, w, i, acc);
    MeansStep(out, arr, w, i, acc');
  }

  lemma {:induction false} RollStart(arr: seq<int>, w: int, out: seq<Option<real>>)
    requires out == seq(|arr|, _ => None)
    ensures RollState(arr, w, 0, 0, out)
  {
    assert arr[0..0] == [];
  }

  lemma {:induction false} RollEnd(arr: seq<int>, w: int, i: nat, acc: int, out: seq<Option<real>>)
    requires w >= 1 || |arr| == 0
    requires i >= |arr| && RollState(arr, w, i, acc, out)
    ensures |out| == |arr|
    ensures forall k :: 0 <= k < |arr| && k < w - 1 ==> out[k] == None
    ensures forall k :: 0 <= k < |arr| && k >= w - 1 ==> out[k] == Some(Mean(Sum(arr[k - w + 1..k + 1]), w))
  {
  }

  /** The mean of w values adding up to `total`. */
  function Mean(total: int, w: int): real
    requires w >= 1
  {
    total as real / w as real
  }

  /** The output after i steps: the means of the windows ending before i, and
      nothing yet from i on. */
  ghost predicate MeansSoFar(res: seq<Option<real>>, arr: seq<int>, w: int, i: nat)
  {
    && |res| == |arr| && i <= |arr|
    && (forall k :: 0 <= k < |arr| && (k >= i || k < w - 1) ==> res[k] == None)
    && (w >= 1 ==> forall k :: 0 <= k < i && k >= w - 1 ==> res[k] == Some(Mean(Sum(arr[k - w + 1..k + 1]), w)))
  }

  lemma {:induction false} MeansStep(res: seq<Option<real>>, arr: seq<int>, w: int, i: nat, acc: int)
    requires i < |arr| && w >= 1 && MeansSoFar(res, arr, w, i)
    requires AccIs(arr, w, i + 1, acc)
    ensures MeansSoFar(if i >= w - 1 then res[i := Some(Mean(acc, w))] else res, arr, w, i + 1)
  {
    if i >= w - 1 {
      assert WindowStart(i + 1, w) == i - w + 1;
    }
  }

  /** Where the accumulator's window starts once i values have been added. */
  function WindowStart(i: int, w: int): int
  {
    if i >= w then i - w else 0
  }

  /** `acc` holds the sum of the current window once i values have been added. */
  ghost predicate AccIs(arr: seq<int>, w: int, i: nat, acc: int)
  {
    w >= 1 && i <= |arr| ==> acc == Sum(arr[WindowStart(i, w)..i])
  }

  lemma {:induction false} AccStep(arr: seq<int>, w: int, i: nat, acc: int)
    requires i < |arr| && w >= 1 && AccIs(arr, w, i, acc)
    ensures AccIs(arr, w, i + 1, acc + arr[i] - (if i >= w then arr[i - w] else 0))
  {
    WindowStep(arr, i, w);
  }

  /** Adding `arr[i]` and dropping `arr[i - w]` moves the window one step. */
  lemma {:induction false} WindowStep(arr: seq<int>, i: nat, w: int)
    requires 1 <= w && i < |arr|
    ensures Sum(arr[WindowStart(i + 1, w)..i + 1]) == Sum(arr[WindowStart(i, w)..i]) + arr[i] - (if i >= w then arr[i - w] else 0)
  {
    var lo := WindowStart(i, w);
    assert arr[lo..i + 1] == arr[lo..i] + [arr[i]];
    SumAppend(arr[lo..i], [arr[i]]);
    if i >= w {
      assert arr[i - w..i + 1] == [arr[i - w]] + arr[i - w + 1..i + 1];
      SumAppend([arr[i - w]], arr[i - w + 1..i + 1]);
    }
  }

  // ---------------------------------------------------------------------------
  // Position bias

  /** Whether draw d's i-th smallest distinct main is n (within 1..domainMax). */
  function PosHit(d: Draw, i: nat, n: int, domainMax: int): nat
  {
    var s := SortedUnique(d.z);
    if i < |s| && s[i] == n && 1 <= n <= domainMax then 1 else 0
  }

  /** Number of draws whose i-th smallest distinct main is n (within 1..domainMax). */
  function PosCount(draws: seq<Draw>, i: nat, n: int, domainMax: int): nat
  {
    if |draws| == 0 then 0
    else PosCount(draws[..|draws| - 1], i, n, domainMax) + PosHit(draws[|draws| - 1], i, n, domainMax)
  }

  /** The counters hold the position counts of `draws`. */
  ghost predicate PosCountsAre(m: array2<nat>, draws: seq<Draw>, domainMax: nat)
    reads m
  {
    forall i, n :: 0 <= i < m.Length0 && 0 <= n < m.Length1 ==> m[i, n] == PosCount(draws, i, n, domainMax)
  }

  /** The count matrix of `computePositionBias`: `positions` rows of
      `domainMax + 1` counters, where row i, column n counts the draws whose
      i-th smallest distinct main is n. */
  method PositionCounts(draws: seq<Draw>, domainMax: nat, positions: nat) returns (mat: seq<seq<nat>>)
    ensures |mat| == positions
    ensures forall i :: 0 <= i < positions ==> |mat[i]| == domainMax + 1
    ensures forall i, n :: 0 <= i < positions && 0 <= n <= domainMax ==> mat[i][n] == PosCount(draws, i, n, domainMax)
  {
    var m := new nat[positions, domainMax + 1]((_, _) => 0);
    var k := 0;
    while k < |draws|
      invariant 0 <= k <= |draws|
      invariant PosCountsAre(m, draws[..k], domainMax)
    {
      assert draws[..k + 1] == draws[..k] + [draws[k]];
      AddPositions(m, draws[..k], draws[k], domainMax);
      k := k + 1;
    }
    assert draws[..|draws|] == draws;
    mat := Rows(m);
  }

  /** The inner loop of `computePositionBias` for one draw: `mat[i][s[i]]++`
      for the first `positions` of its sorted distinct mains that are in range. */
  method AddPositions(m: array2<nat>, ghost seen: seq<Draw>, d: Draw, domainMax: nat)
    requires m.Length1 == domainMax + 1
    requires PosCountsAre(m, seen, domainMax)
    modifies m
    ensures PosCountsAre(m, seen + [d], domainMax)
  {
    var s := SortedUnique(d.z);
    var p := if |s| < m.Length0 then |s| else m.Length0;
    var i := 0;
    while i < p
      invariant 0 <= i <= p
      invariant AddedBelow(m, seen, d, i, domainMax)
    {
      var n := s[i];
      if 1 <= n <= domainMax {
        m[i, n] := m[i, n] + 1;
      }
      i := i + 1;
    }
    AddedAll(m, seen, d, p, domainMax);
  }

  /** The first i rows of the counters already include draw d. */
  ghost predicate AddedBelow(m: array2<nat>, seen: seq<Draw>, d: Draw, i: nat, domainMax: nat)
    reads m
  {
    forall i', n :: 0 <= i' < m.Length0 && 0 <= n < m.Length1 ==>
      m[i', n] == PosCount(seen, i', n, domainMax) + (if i' < i then PosHit(d, i', n, domainMax) else 0)
  }

  /** Once the rows of all of d's positions include it, the counters hold the
      position counts of `seen + [d]`. */
  lemma {:induction false} AddedAll(m: array2<nat>, seen: seq<Draw>, d: Draw, p: nat, domainMax: nat)
    requires p == |SortedUnique(d.z)| || p == m.Length0
    requires AddedBelow(m, seen, d, p, domainMax)
    ensures PosCountsAre(m, seen + [d], domainMax)
  {
    forall i', n | 0 <= i' < m.Length0 && 0 <= n < m.Length1
      ensures m[i', n] == PosCount(seen + [d], i', n, domainMax)
    {
      PosCountSnoc(seen, d, i', n, domainMax);
    }
  }

  lemma {:induction false} PosCountSnoc(seen: seq<Draw>, d: Draw, i: nat, n: int, domainMax: nat)
    ensures PosCount(seen + [d], i, n, domainMax) == PosCount(seen, i, n, domainMax) + PosHit(d, i, n, domainMax)
  {
    assert (seen + [d])[..|seen|] == seen;
  }

  /** `Math.max(1, ...row)`. */
  function RowMax(row: seq<nat>): (r: nat)
    ensures r >= 1
    ensures forall n :: 0 <= n < |row| ==> row[n] <= r
    ensures r == 1 || exists n :: 0 <= n < |row| && row[n] == r
  {
    if |row| == 0 then 1
    else
      var m := RowMax(row[..|row| - 1]);
      if row[|row| - 1] > m then row[|row| - 1] else m
  }

  /** `row.map(v => v / max)`: every entry lies in [0, 1]. */
  function Normalize(row: seq<nat>): (r: seq<real>)
    ensures |r| == |row|
    ensures forall n :: 0 <= n < |row| ==> r[n] == row[n] as real / RowMax(row) as real
    ensures forall n :: 0 <= n < |row| ==> 0.0 <= r[n] <= 1.0
  {
    var mx := RowMax(row);
    var r := seq(|row|, n requires 0 <= n < |row| => row[n] as real / mx as real);
    forall n | 0 <= n < |row|
      ensures 0.0 <= r[n] <= 1.0
    {
      UnitFraction(row[n], mx);
    }
    r
  }

  lemma {:induction false} UnitFraction(a: nat, b: nat)
    requires 1 <= b && a <= b
    ensures 0.0 <= a as real / b as real <= 1.0
  {
    assert a as real / b as real * b as real == a as real;
  }

  lemma {:induction false} SelfDivide(b: nat)
    requires b >= 1
    ensures b as real / b as real == 1.0
  {
  }

  /** A row with a non-zero count has a 1 at its largest count. */
  lemma {:induction false} NormalizeReachesOne(row: seq<nat>)
    requires exists n :: 0 <= n < |row| && row[n] > 0
    ensures exists n :: 0 <= n < |row| && Normalize(row)[n] == 1.0
  {
    var mx := RowMax(row);
    var n :| 0 <= n < |row| && row[n] > 0;
    var j := n;
    if mx != 1 {
      j :| 0 <= j < |row| && row[j] == mx;
    }
    assert row[j] == mx;
    SelfDivide(mx);
    assert Normalize(row)[j] == 1.0;
  }

  /** Row i of the count matrix as a specification. */
  function PosRow(draws: seq<Draw>, i: nat, domainMax: nat): (row: seq<nat>)
    ensures |row| == domainMax + 1
    ensures forall n :: 0 <= n <= domainMax ==> row[n] == PosCount(draws, i, n, domainMax)
  {
    seq(domainMax + 1, n requires 0 <= n <= domainMax => PosCount(draws, i, n, domainMax))
  }

  /** `computePositionBias(draws, domainMax, positions)`: the count matrix with
      each row divided by its largest count (at least 1), so every entry is in [0, 1]. */
  method ComputePositionBias(draws: seq<Draw>, domainMax: nat, positions: nat) returns (rows: seq<seq<real>>)
    ensures |rows| == positions
    ensures forall i :: 0 <= i < positions ==> rows[i] == Normalize(PosRow(draws, i, domainMax))
    ensures forall i :: 0 <= i < positions ==> |rows[i]| == domainMax + 1
    ensures forall i, n :: 0 <= i < positions && 0 <= n <= domainMax ==> 0.0 <= rows[i][n] <= 1.0
  {
    var mat := PositionCounts(draws, domainMax, positions);
    forall i | 0 <= i < positions
      ensures mat[i] == PosRow(draws, i, domainMax)
    {
    }
    rows := seq(positions, i requires 0 <= i < positions => Normalize(mat[i]));
  }
}
