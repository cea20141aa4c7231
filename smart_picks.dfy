/**
 * The exact-arithmetic parts of the smart-pick generator
 * (apps/web/components/SmartPicks.tsx): co-occurrence counting, top-k
 * selection by key, the shape bonuses, penalties and badges of a ticket, the
 * capped pair bonus, the greedy diversifier, the historical sum band, the
 * seeded linear congruential generator and the empty-history guard of the
 * pipeline. The floating-point weights, the log-weight base score, the lift
 * ratio and the sampling keys are taken as inputs.
 */
module SmartPicks {
  import opened Seqs
  import opened Core
  import opened AdvancedPairs
  import opened AdvancedTallies

  /** `clamp(x, lo, hi) = max(lo, min(hi, x))`. */
  function Clamp(x: int, lo: int, hi: int): (r: int)
    ensures lo <= hi ==> lo <= r <= hi
    ensures lo <= x <= hi ==> r == x
    ensures x < lo <= hi ==> r == lo
    ensures lo <= hi < x ==> r == hi
    ensures hi < lo ==> r == lo
  {
    Max(lo, Min(hi, x))
  }

  // ---------------------------------------------------------------------------
  // pairMatrix

  /** `seen[m]`: the number of draws whose mains contain m. */
  function SeenCount(draws: seq<Draw>, m: int): (r: nat)
    ensures r <= |draws|
  {
    if |draws| == 0 then 0
    else SeenCount(draws[..|draws| - 1], m) + (if m in draws[|draws| - 1].z then 1 else 0)
  }

  /** A pair cannot occur in more draws than either of its numbers. */
  lemma {:induction false} PairBoundedBySeen(draws: seq<Draw>, a: int, b: int)
    ensures PairCount(draws, a, b) <= SeenCount(draws, a)
    ensures PairCount(draws, a, b) <= SeenCount(draws, b)
  {
    if |draws| > 0 {
      PairBoundedBySeen(draws[..|draws| - 1], a, b);
    }
  }

  /** The `for (const m of ms) seen[m]++` loop over the distinct mains of each draw. */
  method SeenCounts(draws: seq<Draw>, domainMax: nat) returns (seen: seq<nat>)
    requires forall i :: 0 <= i < |draws| ==> AllIn(draws[i].z, 0, domainMax)
    ensures |seen| == domainMax + 1
    ensures forall m :: 0 <= m <= domainMax ==> seen[m] == SeenCount(draws, m)
  {
    var s := new nat[domainMax + 1](_ => 0);
    var k := 0;
    while k < |draws|
      invariant 0 <= k <= |draws|
      invariant SeenCountsAre(s, draws[..k])
    {
      assert draws[..k + 1] == draws[..k] + [draws[k]];
      AddSeen(s, draws[..k], draws[k]);
      k := k + 1;
    }
    assert draws[..|draws|] == draws;
    seen := s[..];
  }

  ghost predicate SeenCountsAre(s: array<nat>, draws: seq<Draw>)
    reads s
  {
    forall m :: 0 <= m < s.Length ==> s[m] == SeenCount(draws, m)
  }

  /** One draw of `SeenCounts`: each of its distinct mains is counted once. */
  method AddSeen(s: array<nat>, ghost before: seq<Draw>, d: Draw)
    requires AllIn(d.z, 0, s.Length - 1)
    requires SeenCountsAre(s, before)
    modifies s
    ensures SeenCountsAre(s, before + [d])
  {
    var ms := SortedUnique(d.z);
    assert (before + [d])[..|before|] == before;
    var p := 0;
    while p < |ms|
      invariant 0 <= p <= |ms|
      invariant forall m :: 0 <= m < s.Length ==> s[m] == SeenCount(before, m) + (if m in ms[..p] then 1 else 0)
    {
      var m := ms[p];
      assert ms[..p + 1] == ms[..p] + [m];
      assert m !in ms[..p];
      assert m in d.z;
      s[m] := s[m] + 1;
      p := p + 1;
    }
    assert ms[..|ms|] == ms;
  }

  /** `pairMatrix(draws, domainMax)`: the co-occurrence matrix of the distinct
      mains of each draw together with `seen`. The source fills both in one
      pass; the matrix part is the loop the advanced view shares. */
  method PairMatrix(draws: seq<Draw>, domainMax: nat) returns (mat: seq<seq<nat>>, seen: seq<nat>)
    requires forall i :: 0 <= i < |draws| ==> AllIn(draws[i].z, 0, domainMax)
    ensures |mat| == domainMax + 1 && |seen| == domainMax + 1
    ensures forall a :: 0 <= a <= domainMax ==> |mat[a]| == domainMax + 1
    ensures forall a, b :: 0 <= a <= domainMax && 0 <= b <= domainMax ==>
      mat[a][b] == PairCount(draws, a, b) == mat[b][a] && mat[a][b] <= seen[a]
    ensures forall a :: 0 <= a <= domainMax ==> mat[a][a] == 0
    ensures forall m :: 0 <= m <= domainMax ==> seen[m] == SeenCount(draws, m)
  {
    mat := PairMatrixCounts(draws, domainMax);
    seen := SeenCounts(draws, domainMax);
    forall a, b | 0 <= a <= domainMax && 0 <= b <= domainMax
      ensures mat[a][b] <= seen[a]
    {
      PairBoundedBySeen(draws, a, b);
    }
  }

  // ---------------------------------------------------------------------------
  // sampleK: selecting the k largest keys

  datatype Keyed = Keyed(i: int, key: real)

  function NegKey(x: Keyed): real
  {
    -x.key
  }

  function Index(x: Keyed): int
  {
    x.i
  }

  /** Every entry pairs a number 1..|keys| with its own key. */
  ghost predicate KeyedFrom(s: seq<Keyed>, keys: seq<real>)
  {
    forall e :: e in s ==> 1 <= e.i <= |keys| && e.key == keys[e.i - 1]
  }

  /** The numbers of entries that pair each number with its own key identify
      the entries, so distinct entries have distinct numbers. */
  lemma {:induction false} DistinctIndices(s: seq<Keyed>, keys: seq<real>)
    requires KeyedFrom(s, keys) && Distinct(s)
    ensures Distinct(MapSeq(s, Index))
  {
    forall a, b | 0 <= a < b < |s|
      ensures s[a].i != s[b].i
    {
      assert s[a] in s && s[b] in s;
    }
  }

  /** A sorted sequence without repeats is strictly increasing. */
  lemma {:induction false} SortedDistinctIncreasing(r: seq<int>)
    requires forall i, j :: 0 <= i < j < |r| ==> r[i] <= r[j]
    requires Distinct(r)
    ensures StrictlyIncreasing(r)
  {
  }

  /** The candidate list `keys.push({ i, key })` for i = 1..domainMax. */
  method KeyList(domainMax: nat, keys: seq<real>) returns (list: seq<Keyed>)
    requires |keys| == domainMax
    ensures |list| == domainMax
    ensures forall j :: 0 <= j < domainMax ==> list[j] == Keyed(j + 1, keys[j])
  {
    list := [];
    var i := 1;
    while i <= domainMax
      invariant 1 <= i <= domainMax + 1
      invariant |list| == i - 1
      invariant forall j :: 0 <= j < i - 1 ==> list[j] == Keyed(j + 1, keys[j])
    {
      list := list + [Keyed(i, keys[i - 1])];
      i := i + 1;
    }
  }

  /** Sorting the candidate list keeps every entry and adds none. */
  lemma {:induction false} SortedKeyed(list: seq<Keyed>, sorted: seq<Keyed>, keys: seq<real>)
    requires |list| == |keys|
    requires forall j :: 0 <= j < |keys| ==> list[j] == Keyed(j + 1, keys[j])
    requires multiset(sorted) == multiset(list)
    ensures KeyedFrom(sorted, keys) && Distinct(sorted)
    ensures forall j :: 0 <= j < |keys| ==> Keyed(j + 1, keys[j]) in sorted
  {
    assert Distinct(list);
    SameElements(sorted, list);
    PermutationDistinct(sorted, list);
    forall j | 0 <= j < |keys|
      ensures Keyed(j + 1, keys[j]) in sorted
    {
      assert list[j] in list;
    }
  }

  /** The numbers of the first t sorted entries are distinct and in `1..|keys|`. */
  lemma {:induction false} TopIds(sorted: seq<Keyed>, keys: seq<real>, t: nat)
    requires KeyedFrom(sorted, keys) && Distinct(sorted)
    requires t <= |sorted|
    ensures var ids := MapSeq(sorted[..t], Index);
      && Distinct(ids)
      && (forall j :: 0 <= j < |ids| ==> 1 <= ids[j] <= |keys|)
  {
    var top := sorted[..t];
    assert KeyedFrom(top, keys) by {
      forall e | e in top
        ensures e in sorted
      {
      }
    }
    DistinctIndices(top, keys);
    forall j | 0 <= j < t
      ensures 1 <= top[j].i <= |keys|
    {
      assert top[j] in top;
    }
  }

  /** No number outside the first t sorted entries has a larger key than a
      number inside them. */
  lemma {:induction false} TopDominates(sorted: seq<Keyed>, keys: seq<real>, t: nat)
    requires KeyedFrom(sorted, keys) && SortedBy(sorted, NegKey)
    requires forall j :: 0 <= j < |keys| ==> Keyed(j + 1, keys[j]) in sorted
    requires t <= |sorted|
    ensures var ids := MapSeq(sorted[..t], Index);
      forall x, y :: x in ids && 1 <= y <= |keys| && y !in ids ==> keys[y - 1] <= keys[x - 1]
  {
    var ids := MapSeq(sorted[..t], Index);
    assert |ids| <= |sorted| && forall j :: 0 <= j < |ids| ==> ids[j] == sorted[j].i by {
      forall j | 0 <= j < |ids|
        ensures ids[j] == sorted[j].i
      {
        assert sorted[..t][j] == sorted[j];
      }
    }
    forall x, y | x in ids && 1 <= y <= |keys| && y !in ids
      ensures keys[y - 1] <= keys[x - 1]
    {
      TopDominatesOne(sorted, keys, ids, x, y);
    }
  }

  /** One pair of `TopDominates`: a number x inside the top and a number y outside. */
  lemma {:induction false} TopDominatesOne(sorted: seq<Keyed>, keys: seq<real>, ids: seq<int>, x: int, y: int)
    requires KeyedFrom(sorted, keys) && SortedBy(sorted, NegKey)
    requires |ids| <= |sorted| && forall j :: 0 <= j < |ids| ==> ids[j] == sorted[j].i
    requires 1 <= y <= |keys| && Keyed(y, keys[y - 1]) in sorted
    requires x in ids && y !in ids
    ensures keys[y - 1] <= keys[x - 1]
  {
    var a :| 0 <= a < |ids| && ids[a] == x;
    assert sorted[a] in sorted;
    var c :| 0 <= c < |sorted| && sorted[c] == Keyed(y, keys[y - 1]);
    assert forall j :: 0 <= j < |ids| ==> ids[j] != y;
    assert NegKey(sorted[a]) <= NegKey(sorted[c]);
  }

  /** The numbers of the first k entries once the keyed numbers are sorted by
      descending key: distinct numbers of `1..domainMax` whose keys are at
      least as large as those of every number left out. */
  method TopKeyIds(domainMax: nat, k: nat, keys: seq<real>) returns (ids: seq<int>)
    requires |keys| == domainMax
    ensures |ids| == Min(k, domainMax)
    ensures Distinct(ids)
    ensures forall j :: 0 <= j < |ids| ==> 1 <= ids[j] <= domainMax
    ensures forall x, y :: x in ids && 1 <= y <= domainMax && y !in ids ==> keys[y - 1] <= keys[x - 1]
  {
    var list := KeyList(domainMax, keys);
    var sorted := SortBy(list, NegKey);
    var n := Min(k, domainMax);
    SortedKeyed(list, sorted, keys);
    TopIds(sorted, keys, n);
    TopDominates(sorted, keys, n);
    ids := MapSeq(sorted[..n], Index);
  }

  /** The selection step of `sampleK(domainMax, k, w, rng)`, with `keys[i - 1]`
      the key drawn for number i: the numbers with the k largest keys,
      distinct, inside `1..domainMax` and in ascending order. */
  method SampleK(domainMax: nat, k: nat, keys: seq<real>) returns (r: seq<int>)
    requires |keys| == domainMax
    ensures |r| == Min(k, domainMax)
    ensures forall j :: 0 <= j < |r| ==> 1 <= r[j] <= domainMax
    ensures StrictlyIncreasing(r)
    ensures forall x, y :: x in r && 1 <= y <= domainMax && y !in r ==> keys[y - 1] <= keys[x - 1]
  {
    var ids := TopKeyIds(domainMax, k, keys);
    r := SortInts(ids);
    assert StrictlyIncreasing(r) by {
      PermutationDistinct(r, ids);
      SortedDistinctIncreasing(r);
    }
    assert forall e :: e in r <==> e in ids by {
      SameElements(r, ids);
    }
    forall j | 0 <= j < |r|
      ensures 1 <= r[j] <= domainMax
    {
      assert r[j] in r && r[j] in ids;
    }
  }

  // ---------------------------------------------------------------------------
  // scoreTicket

  /** Bonus of one main pair with lift L: `0.5 * min(2, L - 1)` when L > 1. */
  function PairBonusOf(lift: real): (r: real)
    ensures 0.0 <= r <= 1.0
    ensures r > 0.0 <==> lift > 1.0
  {
    if lift > 1.0 then 0.5 * (if 2.0 <= lift - 1.0 then 2.0 else lift - 1.0) else 0.0
  }

  /** Bonuses of the pairs `(m[i], m[i + 1]) .. (m[i], m[j - 1])`: the inner loop. */
  function RowBonus(m: seq<int>, lift: (int, int) -> real, i: nat, j: nat): real
    requires i < j <= |m|
    decreases j
  {
    if j == i + 1 then 0.0 else RowBonus(m, lift, i, j - 1) + PairBonusOf(lift(m[i], m[j - 1]))
  }

  /** Bonuses of all pairs whose first element is before position i. */
  function PairBonus(m: seq<int>, lift: (int, int) -> real, i: nat): real
    requires i <= |m|
  {
    if i == 0 then 0.0 else PairBonus(m, lift, i - 1) + RowBonus(m, lift, i - 1, |m|)
  }

  /** Number of pairs whose first element is before position i. */
  function PairsBefore(n: nat, i: nat): nat
    requires i <= n
  {
    if i == 0 then 0 else PairsBefore(n, i - 1) + (n - i)
  }

  lemma {:induction false} RowBonusBounds(m: seq<int>, lift: (int, int) -> real, i: nat, j: nat)
    requires i < j <= |m|
    ensures 0.0 <= RowBonus(m, lift, i, j) <= (j - i - 1) as real
    decreases j
  {
    if j > i + 1 {
      RowBonusBounds(m, lift, i, j - 1);
    }
  }

  /** Each pair adds between 0 and 1, so the pair bonus is at most the number of pairs. */
  lemma {:induction false} PairBonusBounds(m: seq<int>, lift: (int, int) -> real, i: nat)
    requires i <= |m|
    ensures 0.0 <= PairBonus(m, lift, i) <= PairsBefore(|m|, i) as real
  {
    if i > 0 {
      PairBonusBounds(m, lift, i - 1);
      RowBonusBounds(m, lift, i - 1, |m|);
    }
  }

  lemma {:induction false} PairsBeforeClosed(n: nat, i: nat)
    requires i <= n
    ensures 2 * PairsBefore(n, i) == i * (2 * n - 1 - i)
  {
    if i > 0 {
      PairsBeforeClosed(n, i - 1);
      assert (i - 1) * (2 * n - i) + 2 * (n - i) == i * (2 * n - 1 - i);
    }
  }

  /** Over the five mains of a ticket the pair bonus lies in [0, 10]. */
  lemma {:induction false} FiveMainsPairBonus(m: seq<int>, lift: (int, int) -> real)
    requires |m| == 5
    ensures 0.0 <= PairBonus(m, lift, 5) <= 10.0
  {
    PairBonusBounds(m, lift, 5);
    PairsBeforeClosed(5, 5);
  }

  /** "wide spread": the smallest main is at most 10 and the largest at least 40. */
  predicate WideSpread(m: seq<int>)
  {
    |m| > 0 && m[0] <= 10 && m[|m| - 1] >= 40
  }

  /** "good spacing": the mains span at least 28, i.e. the average of the four
      gaps `(max - min) / 4` is at least 7. */
  predicate GoodSpacing(m: seq<int>)
  {
    |m| > 0 && m[|m| - 1] - m[0] >= 28
  }

  /** "odd/even balance": two or three odd mains. */
  predicate OddEvenBalanced(m: seq<int>)
  {
    OddCount(m) == 2 || OddCount(m) == 3
  }

  /** The distinct last digits `v % 10`. */
  function Endings(m: seq<int>): set<int>
  {
    set v | v in m :: JsRem(v, 10)
  }

  predicate DigitDiverse(m: seq<int>)
  {
    |Endings(m)| >= 4
  }

  predicate SumInBand(m: seq<int>, lo: int, hi: int)
  {
    lo <= Sum(m) <= hi
  }

  /** "avoids birthdays": every main is at most 31. */
  predicate AllBirthdays(m: seq<int>)
  {
    forall i :: 0 <= i < |m| ==> m[i] <= 31
  }

  /** "avoids long runs": three neighbouring mains are consecutive integers. */
  predicate HasLongRun(m: seq<int>)
  {
    exists i :: 0 <= i && i + 2 < |m| && RunAt(m, i)
  }

  /** `m[i], m[i + 1], m[i + 2]` are consecutive integers. */
  predicate RunAt(m: seq<int>, i: int)
    requires 0 <= i && i + 2 < |m|
  {
    m[i + 1] == m[i] + 1 && m[i + 2] == m[i + 1] + 1
  }

  /** How many mains end in digit d. */
  function EndingCount(m: seq<int>, d: int): (r: nat)
    ensures r <= |m|
  {
    if |m| == 0 then 0 else EndingCount(m[..|m| - 1], d) + (if JsRem(m[|m| - 1], 10) == d then 1 else 0)
  }

  /** "avoids same endings": three or more mains share a last digit. */
  predicate SharedEndings(m: seq<int>)
  {
    exists i :: 0 <= i < |m| && EndingCount(m, JsRem(m[i], 10)) >= 3
  }

  /** The badges a ticket can earn, in the order they are checked. */
  datatype Badge =
    | WideSpreadBadge | GoodSpacingBadge | BalanceBadge | DiversityBadge | BandBadge
    | BirthdaysBadge | LongRunsBadge | SameEndingsBadge

  /** The text shown for each badge. */
  function Label(b: Badge): string
  {
    match b
    case WideSpreadBadge => "wide spread"
    case GoodSpacingBadge => "good spacing"
    case BalanceBadge => "odd/even balance"
    case DiversityBadge => "digit diversity"
    case BandBadge => "sum in band"
    case BirthdaysBadge => "avoids birthdays"
    case LongRunsBadge => "avoids long runs"
    case SameEndingsBadge => "avoids same endings"
  }

  /** The outcome of the eight checks for one ticket. */
  datatype Shape = Shape(
    wide: bool, spaced: bool, balanced: bool, diverse: bool, inBand: bool,
    birthdays: bool, longRun: bool, sameEndings: bool)

  function ShapeOf(m: seq<int>, lo: int, hi: int): Shape
  {
    Shape(WideSpread(m), GoodSpacing(m), OddEvenBalanced(m), DigitDiverse(m), SumInBand(m, lo, hi),
          AllBirthdays(m), HasLongRun(m), SharedEndings(m))
  }

  /** The condition under which a ticket earns each badge. */
  predicate Holds(b: Badge, sh: Shape)
  {
    match b
    case WideSpreadBadge => sh.wide
    case GoodSpacingBadge => sh.spaced
    case BalanceBadge => sh.balanced
    case DiversityBadge => sh.diverse
    case BandBadge => sh.inBand
    case BirthdaysBadge => sh.birthdays
    case LongRunsBadge => sh.longRun
    case SameEndingsBadge => sh.sameEndings
  }

  /** The score change that comes with each badge: bonuses of whole and half
      points, popularity penalties of -1.5, -1 and -0.75. */
  function Delta(b: Badge): real
  {
    match b
    case WideSpreadBadge => 1.0
    case GoodSpacingBadge => 1.0
    case BalanceBadge => 0.5
    case DiversityBadge => 0.5
    case BandBadge => 0.5
    case BirthdaysBadge => -1.5
    case LongRunsBadge => -1.0
    case SameEndingsBadge => -0.75
  }

  /** Position of each badge in the order the checks are made. */
  function Rank(b: Badge): (r: nat)
    ensures r < 8
  {
    match b
    case WideSpreadBadge => 0
    case GoodSpacingBadge => 1
    case BalanceBadge => 2
    case DiversityBadge => 3
    case BandBadge => 4
    case BirthdaysBadge => 5
    case LongRunsBadge => 6
    case SameEndingsBadge => 7
  }

  /** Badges listed in check order, hence each at most once. */
  ghost predicate InCheckOrder(bs: seq<Badge>)
  {
    forall i, j :: 0 <= i < j < |bs| ==> Rank(bs[i]) < Rank(bs[j])
  }

  /** Total score change of a list of badges. */
  function DeltaSum(bs: seq<Badge>): real
  {
    if |bs| == 0 then 0.0 else DeltaSum(bs[..|bs| - 1]) + Delta(bs[|bs| - 1])
  }

  /** The `run`/`maxRun` loop over the sorted mains. */
  method LongestRun(m: seq<int>) returns (maxRun: int)
    ensures maxRun >= 1
    ensures maxRun >= 3 <==> HasLongRun(m)
  {
    var run := 1;
    maxRun := 1;
    var i := 1;
    while i < |m|
      invariant 1 <= i <= Max(1, |m|)
      invariant 1 <= run <= maxRun
      invariant run >= 2 <==> i >= 2 && m[i - 1] == m[i - 2] + 1
      invariant maxRun >= 3 <==> HasLongRun(m[..Min(i, |m|)])
    {
      LongRunSnoc(m, i);
      run := if m[i] == m[i - 1] + 1 then run + 1 else 1;
      if run > maxRun {
        maxRun := run;
      }
      i := i + 1;
    }
    assert m[..Min(i, |m|)] == m;
  }

  /** Extending the scanned prefix by one main adds exactly the run ending there. */
  lemma {:induction false} LongRunSnoc(m: seq<int>, i: nat)
    requires 1 <= i < |m|
    ensures HasLongRun(m[..i + 1]) <==>
      HasLongRun(m[..i]) || (i >= 2 && m[i - 1] == m[i - 2] + 1 && m[i] == m[i - 1] + 1)
  {
    var front, ext := m[..i], m[..i + 1];
    if HasLongRun(ext) && !HasLongRun(front) {
      var j :| 0 <= j && j + 2 < |ext| && RunAt(ext, j);
      if j + 2 < i {
        assert RunAt(front, j);
      }
    }
    if HasLongRun(front) {
      var j :| 0 <= j && j + 2 < |front| && RunAt(front, j);
      assert RunAt(ext, j);
    }
    if i >= 2 && m[i - 1] == m[i - 2] + 1 && m[i] == m[i - 1] + 1 {
      assert RunAt(ext, i - 2);
    }
  }

  /** The `reduce` of the mains into a record from last digit to count. */
  method EndingCounts(m: seq<int>) returns (counts: map<int, nat>)
    ensures forall d :: d in counts <==> exists k :: 0 <= k < |m| && JsRem(m[k], 10) == d
    ensures forall d :: d in counts ==> counts[d] == EndingCount(m, d)
  {
    counts := map[];
    var i := 0;
    while i < |m|
      invariant 0 <= i <= |m|
      invariant forall d :: d in counts <==> exists k :: 0 <= k < i && JsRem(m[k], 10) == d
      invariant forall d :: d in counts ==> counts[d] == EndingCount(m[..i], d)
    {
      var d := JsRem(m[i], 10);
      assert m[..i + 1][..i] == m[..i];
      if d !in counts {
        NoEndingNoCount(m[..i], d);
      }
      counts := counts[d := (if d in counts then counts[d] else 0) + 1];
      i := i + 1;
    }
    assert m[..|m|] == m;
  }

  /** `Math.max(...Object.values(counts))`. Every key of the record is the
      ending of some main, so the maximum is taken over the mains' endings;
      an empty record gives 0 where the source has `-Infinity` (both fail the
      `>= 3` test). */
  method MaxValue(m: seq<int>, counts: map<int, nat>) returns (best: int)
    requires forall d :: d in counts <==> exists k :: 0 <= k < |m| && JsRem(m[k], 10) == d
    ensures forall d :: d in counts ==> counts[d] <= best
    ensures |m| == 0 ==> best == 0
    ensures |m| > 0 ==> exists d :: d in counts && counts[d] == best
  {
    best := 0;
    var k := 0;
    while k < |m|
      invariant 0 <= k <= |m|
      invariant forall j :: 0 <= j < k ==> counts[JsRem(m[j], 10)] <= best
      invariant k == 0 ==> best == 0
      invariant k > 0 ==> exists d :: d in counts && counts[d] == best
    {
      var d := JsRem(m[k], 10);
      best := Max(best, counts[d]);
      k := k + 1;
    }
    if |m| > 0 {
      assert JsRem(m[0], 10) in counts;
    }
    forall d | d in counts
      ensures counts[d] <= best
    {
      var k :| 0 <= k < |m| && JsRem(m[k], 10) == d;
    }
  }

  /** The largest number of mains sharing a last digit reaches 3 exactly when
      three mains share an ending. */
  method MaxSameEnding(m: seq<int>) returns (best: int)
    ensures best >= 3 <==> SharedEndings(m)
  {
    var counts := EndingCounts(m);
    best := MaxValue(m, counts);
    if best >= 3 {
      var d :| d in counts && counts[d] == best;
      var k :| 0 <= k < |m| && JsRem(m[k], 10) == d;
      assert EndingCount(m, JsRem(m[k], 10)) >= 3;
    }
    if SharedEndings(m) {
      var k :| 0 <= k < |m| && EndingCount(m, JsRem(m[k], 10)) >= 3;
      assert JsRem(m[k], 10) in counts;
    }
  }

  lemma {:induction false} NoEndingNoCount(m: seq<int>, d: int)
    requires forall k :: 0 <= k < |m| ==> JsRem(m[k], 10) != d
    ensures EndingCount(m, d) == 0
  {
    if |m| > 0 {
      NoEndingNoCount(m[..|m| - 1], d);
    }
  }

  /** The badge list after the first k checks: in check order, holding
      exactly the badges among those checks whose condition holds. */
  ghost predicate ChecksDone(badges: seq<Badge>, k: nat, sh: Shape)
  {
    InCheckOrder(badges) && forall x :: x in badges <==> Rank(x) < k && Holds(x, sh)
  }

  /** The badge checked at position k. */
  function BadgeAt(k: nat): (b: Badge)
    requires k < 8
    ensures Rank(b) == k
  {
    [WideSpreadBadge, GoodSpacingBadge, BalanceBadge, DiversityBadge, BandBadge,
     BirthdaysBadge, LongRunsBadge, SameEndingsBadge][k]
  }

  /** The badges pushed by the first k checks. */
  function Earned(sh: Shape, k: nat): seq<Badge>
    requires k <= 8
  {
    if k == 0 then []
    else Earned(sh, k - 1) + (if Holds(BadgeAt(k - 1), sh) then [BadgeAt(k - 1)] else [])
  }

  /** After the first k checks the list is in check order and holds exactly
      the badges among them whose condition holds. */
  lemma {:induction false} EarnedDone(sh: Shape, k: nat)
    requires k <= 8
    ensures ChecksDone(Earned(sh, k), k, sh)
  {
    if k > 0 {
      var prev, b := Earned(sh, k - 1), BadgeAt(k - 1);
      var cur := Earned(sh, k);
      assert ChecksDone(prev, k - 1, sh) by {
        EarnedDone(sh, k - 1);
      }
      assert cur == prev + (if Holds(b, sh) then [b] else []);
      forall x
        ensures x in cur <==> Rank(x) < k && Holds(x, sh)
      {
        if Rank(x) == k - 1 {
          RankInjective(x, b);
        }
      }
    }
  }

  lemma {:induction false} RankInjective(x: Badge, y: Badge)
    requires Rank(x) == Rank(y)
    ensures x == y
  {
  }

  /** The score change of the badges pushed by the first k checks. */
  lemma {:induction false} DeltaSumEarned(sh: Shape, k: nat)
    requires 0 < k <= 8
    ensures DeltaSum(Earned(sh, k)) ==
      DeltaSum(Earned(sh, k - 1)) + (if Holds(BadgeAt(k - 1), sh) then Delta(BadgeAt(k - 1)) else 0.0)
  {
    var prev, b := Earned(sh, k - 1), BadgeAt(k - 1);
    if Holds(b, sh) {
      assert Earned(sh, k) == prev + [b];
      DeltaSumSnoc(prev, b);
    } else {
      assert Earned(sh, k) == prev + [];
      assert prev + [] == prev;
    }
  }

  lemma {:induction false} DeltaSumSnoc(bs: seq<Badge>, b: Badge)
    ensures DeltaSum(bs + [b]) == DeltaSum(bs) + Delta(b)
  {
    assert (bs + [b])[..|bs|] == bs;
  }

  /** The eight conditions of `scoreTicket`, evaluated as the source does. */
  method MeasureShape(mains: seq<int>, lo: int, hi: int) returns (sh: Shape)
    ensures sh == ShapeOf(mains, lo, hi)
  {
    var wide := |mains| > 0 && mains[0] <= 10 && mains[|mains| - 1] >= 40;
    var spaced := |mains| > 0 && (mains[|mains| - 1] - mains[0]) as real / 4.0 >= 7.0;
    var odd := OddCount(mains);
    var sum := Sum(mains);
    var birthdays := forall i :: 0 <= i < |mains| ==> mains[i] <= 31;
    var maxRun := LongestRun(mains);
    var maxSameEnding := MaxSameEnding(mains);
    sh := Shape(wide, spaced, odd == 2 || odd == 3, |Endings(mains)| >= 4, sum >= lo && sum <= hi,
                birthdays, maxRun >= 3, maxSameEnding >= 3);
  }

  /** The shape bonuses and popularity penalties: a badge is pushed exactly
      when its condition holds, in check order, and the score moves by the
      deltas of the pushed badges. */
  method ShapeChecks(sh: Shape) returns (delta: real, badges: seq<Badge>)
    ensures forall b :: b in badges <==> Holds(b, sh)
    ensures InCheckOrder(badges)
    ensures delta == DeltaSum(badges)
  {
    delta, badges := 0.0, [];
    for k := 0 to 8
      invariant badges == Earned(sh, k) && delta == DeltaSum(badges)
    {
      // `if (cond) { s += delta; badges.push(label) }` for the k-th check
      var b := BadgeAt(k);
      DeltaSumEarned(sh, k + 1);
      if Holds(b, sh) {
        delta := delta + Delta(b);
        badges := badges + [b];
      }
    }
    EarnedDone(sh, 8);
  }

  /** `scoreTicket`: starting from the log-weight base score, add the capped
      pair bonuses, then the shape bonuses and popularity penalties, pushing a
      badge for each one that applies. */
  method ScoreTicket(mains: seq<int>, base: real, lift: (int, int) -> real, lo: int, hi: int)
    returns (score: real, badges: seq<Badge>)
    ensures forall b :: b in badges <==> Holds(b, ShapeOf(mains, lo, hi))
    ensures InCheckOrder(badges)
    ensures score == base + PairBonus(mains, lift, |mains|) + DeltaSum(badges)
  {
    var s := base;
    var i := 0;
    while i < |mains|
      invariant 0 <= i <= |mains|
      invariant s == base + PairBonus(mains, lift, i)
    {
      var j := i + 1;
      while j < |mains|
        invariant i + 1 <= j <= |mains|
        invariant s == base + PairBonus(mains, lift, i) + RowBonus(mains, lift, i, j)
      {
        var L := lift(mains[i], mains[j]);
        if L > 1.0 {
          s := s + 0.5 * (if 2.0 <= L - 1.0 then 2.0 else L - 1.0);
        }
        j := j + 1;
      }
      i := i + 1;
    }
    var delta;
    var sh := MeasureShape(mains, lo, hi);
    delta, badges := ShapeChecks(sh);
    s := s + delta;
    score := s;
  }

  // ---------------------------------------------------------------------------
  // selectDiverse

  datatype Ticket = Ticket(mains: seq<int>, euros: seq<int>, score: real, badges: seq<Badge>)

  /** `dist(a, b) = (5 - shared mains) + (2 - shared euros)`, where
      `a.filter((v) => b.includes(v)).length` counts the entries of `a` found in `b`. */
  function Dist(a: Ticket, b: Ticket): int
  {
    (5 - MatchCount(a.mains, set x | x in b.mains)) + (2 - MatchCount(a.euros, set x | x in b.euros))
  }

  ghost predicate PairwiseDiverse(picks: seq<Ticket>)
  {
    forall i, j :: 0 <= i < j < |picks| ==> Dist(picks[i], picks[j]) >= 5
  }

  /** The greedy pass of `selectDiverse`: a candidate is kept when it is the
      first or at distance at least 5 from every ticket kept so far, and the
      pass stops once `want` tickets are kept. */
  method GreedyDiverse(pool: seq<Ticket>, want: int) returns (picks: seq<Ticket>)
    ensures |picks| <= |pool|
    ensures |pool| > 0 ==> |picks| >= 1 && picks[0] == pool[0]
    ensures want >= 1 ==> |picks| <= want
    ensures forall t :: t in picks ==> t in pool
    ensures PairwiseDiverse(picks)
  {
    picks := [];
    var c := 0;
    while c < |pool|
      invariant 0 <= c <= |pool|
      invariant |picks| <= c
      invariant c > 0 ==> |picks| >= 1 && picks[0] == pool[0]
      invariant want >= 1 ==> |picks| < want
      invariant forall t :: t in picks ==> t in pool
      invariant PairwiseDiverse(picks)
    {
      var cand := pool[c];
      if |picks| == 0 || forall p :: p in picks ==> Dist(p, cand) >= 5 {
        picks := picks + [cand];
        if |picks| == want {
          break;
        }
      }
      c := c + 1;
    }
  }

  /** What `selectDiverse(pool, want)` returns: `min(want, |pool|)` tickets
      (for positive `want`) taken from the pool, starting with `pool[0]`; a
      pairwise diverse prefix of length `g`, then `pool[k]` at each later
      position k. */
  ghost predicate DiverseSelection(pool: seq<Ticket>, picks: seq<Ticket>, want: int)
  {
    && (want >= 1 ==> |picks| == Min(want, |pool|))
    && Min(want, |pool|) <= |picks| <= |pool|
    && (|pool| > 0 ==> |picks| > 0 && picks[0] == pool[0])
    && (forall t :: t in picks ==> t in pool)
    && exists g :: 0 <= g <= |picks| && PairwiseDiverse(picks[..g]) && (|pool| > 0 ==> g >= 1)
                   && (forall k :: g <= k < |picks| ==> picks[k] == pool[k])
  }

  /** `selectDiverse(pool, want)`: a greedy pass keeps each candidate at
      distance at least 5 from every ticket kept so far (the first is always
      kept) until `want` are kept; then, while short, `pool[picks.length]` is
      appended, which may repeat a ticket already kept. */
  method SelectDiverse(pool: seq<Ticket>, want: int) returns (picks: seq<Ticket>)
    ensures DiverseSelection(pool, picks, want)
  {
    picks := GreedyDiverse(pool, want);
    ghost var g := |picks|;
    ghost var greedy := picks;
    assert picks[..g] == picks;
    while |picks| < want && |picks| < |pool|
      invariant g <= |picks| <= |pool|
      invariant want >= 1 ==> |picks| <= want
      invariant picks[..g] == greedy
      invariant |pool| > 0 ==> g >= 1 && picks[0] == pool[0]
      invariant PairwiseDiverse(picks[..g])
      invariant forall t :: t in picks ==> t in pool
      invariant forall k :: g <= k < |picks| ==> picks[k] == pool[k]
    {
      picks := picks + [pool[|picks|]];
    }
    assert PairwiseDiverse(picks[..g]);
  }

  // ---------------------------------------------------------------------------
  // computeSumBand: the middle 60% of historical main sums

  datatype Band = Band(lo: int, hi: int)

  /** The sum of the mains of each draw. */
  function MainSums(draws: seq<Draw>): (r: seq<int>)
    ensures |r| == |draws|
  {
    MapSeq(draws, (d: Draw) => Sum(d.z))
  }

  /** How many values of `s` are below v. */
  function CountBelow(s: seq<int>, v: int): (c: nat)
    ensures c <= |s|
  {
    if |s| == 0 then 0 else CountBelow(s[..|s| - 1], v) + (if s[|s| - 1] < v then 1 else 0)
  }

  lemma {:induction false} CountsAppend(a: seq<int>, b: seq<int>, v: int)
    ensures CountBelow(a + b, v) == CountBelow(a, v) + CountBelow(b, v)
    ensures CountAtMost(a + b, v) == CountAtMost(a, v) + CountAtMost(b, v)
  {
    if |b| == 0 {
      assert a + b == a;
    } else {
      var b' := b[..|b| - 1];
      assert (a + b)[..|a + b| - 1] == a + b';
      assert (a + b)[|a + b| - 1] == b[|b| - 1];
      CountsAppend(a, b', v);
    }
  }

  /** The counts depend only on which values occur how often, not on their order. */
  /** Removing the element at index j removes one copy of it. */
  lemma {:induction false} RemoveAtMultiset(t: seq<int>, j: nat)
    requires j < |t|
    ensures multiset(t[..j] + t[j + 1..]) == multiset(t) - multiset{t[j]}
  {
    assert t == t[..j] + [t[j]] + t[j + 1..];
  }

  /** The counts of a sequence are those without its element at index j plus that element's. */
  lemma {:induction false} CountsRemoveAt(t: seq<int>, j: nat, v: int)
    requires j < |t|
    ensures CountBelow(t, v) == CountBelow(t[..j] + t[j + 1..], v) + CountBelow([t[j]], v)
    ensures CountAtMost(t, v) == CountAtMost(t[..j] + t[j + 1..], v) + CountAtMost([t[j]], v)
  {
    assert t == t[..j] + [t[j]] + t[j + 1..];
    CountsAppend(t[..j], [t[j]], v);
    CountsAppend(t[..j] + [t[j]], t[j + 1..], v);
    CountsAppend(t[..j], t[j + 1..], v);
  }

  lemma {:induction false} CountsPermutation(s: seq<int>, t: seq<int>, v: int)
    requires multiset(s) == multiset(t)
    ensures CountBelow(s, v) == CountBelow(t, v)
    ensures CountAtMost(s, v) == CountAtMost(t, v)
    decreases |s|
  {
    if |s| == 0 {
      assert |t| == |multiset(t)| == 0;
    } else {
      var init, x := s[..|s| - 1], s[|s| - 1];
      assert s == init + [x];
      assert x in multiset(t);
      var j :| 0 <= j < |t| && t[j] == x;
      var rest := t[..j] + t[j + 1..];
      assert multiset(init) == multiset(rest) by {
        assert multiset(init) == multiset(s) - multiset{x};
        RemoveAtMultiset(t, j);
      }
      CountsPermutation(init, rest, v);
      CountsRemoveAt(t, j, v);
      CountsAppend(init, [x], v);
    }
  }

  lemma {:induction false} NoneBelow(s: seq<int>, v: int)
    requires forall i :: 0 <= i < |s| ==> s[i] >= v
    ensures CountBelow(s, v) == 0
  {
    if |s| > 0 {
      NoneBelow(s[..|s| - 1], v);
    }
  }

  lemma {:induction false} AllAtMost(s: seq<int>, v: int)
    requires forall i :: 0 <= i < |s| ==> s[i] <= v
    ensures CountAtMost(s, v) == |s|
  {
    if |s| > 0 {
      AllAtMost(s[..|s| - 1], v);
    }
  }

  /** In an ascending sequence the value at position k has at most k values
      below it and at least k + 1 values at or below it: it is the k-th
      order statistic. */
  lemma {:induction false} SortedRank(t: seq<int>, k: nat)
    requires forall i, j :: 0 <= i < j < |t| ==> t[i] <= t[j]
    requires k < |t|
    ensures CountBelow(t, t[k]) <= k
    ensures CountAtMost(t, t[k]) >= k + 1
  {
    SortedRankBelow(t, k);
    SortedRankAtMost(t, k);
  }

  /** Nothing from position k on is below `t[k]`. */
  lemma {:induction false} SortedRankBelow(t: seq<int>, k: nat)
    requires forall i, j :: 0 <= i < j < |t| ==> t[i] <= t[j]
    requires k < |t|
    ensures CountBelow(t, t[k]) <= k
  {
    var v, back := t[k], t[k..];
    assert t == t[..k] + back;
    CountsAppend(t[..k], back, v);
    SuffixAtLeast(t, k, back);
    NoneBelow(back, v);
  }

  lemma {:induction false} SuffixAtLeast(t: seq<int>, k: nat, back: seq<int>)
    requires forall i, j :: 0 <= i < j < |t| ==> t[i] <= t[j]
    requires k < |t| && back == t[k..]
    ensures forall i :: 0 <= i < |back| ==> back[i] >= t[k]
  {
    forall i | 0 <= i < |back|
      ensures back[i] >= t[k]
    {
      assert back[i] == t[k + i];
    }
  }

  /** Everything up to position k is at most `t[k]`. */
  lemma {:induction false} SortedRankAtMost(t: seq<int>, k: nat)
    requires forall i, j :: 0 <= i < j < |t| ==> t[i] <= t[j]
    requires k < |t|
    ensures CountAtMost(t, t[k]) >= k + 1
  {
    var v, front := t[k], t[..k + 1];
    assert t == front + t[k + 1..];
    CountsAppend(front, t[k + 1..], v);
    PrefixAtMost(t, k, front);
    AllAtMost(front, v);
  }

  lemma {:induction false} PrefixAtMost(t: seq<int>, k: nat, front: seq<int>)
    requires forall i, j :: 0 <= i < j < |t| ==> t[i] <= t[j]
    requires k < |t| && front == t[..k + 1]
    ensures forall i :: 0 <= i < |front| ==> front[i] <= t[k]
  {
    forall i | 0 <= i < |front|
      ensures front[i] <= t[k]
    {
      assert front[i] == t[i];
    }
  }

  /** `computeSumBand`: with no history the fallback band 95..185; otherwise
      the sums at positions `floor(0.2 * (n - 1))` and `floor(0.8 * (n - 1))`
      of the ascending list of the n draw sums (the float products are exact
      at these integers). Both ends are sums that occurred, the band is not
      empty, and each end has the rank of its percentile among the sums. */
  function SumBand(draws: seq<Draw>): (b: Band)
    ensures |draws| == 0 ==> b == Band(95, 185)
    ensures |draws| > 0 ==> b.lo <= b.hi && b.lo in MainSums(draws) && b.hi in MainSums(draws)
    ensures |draws| > 0 ==>
      CountBelow(MainSums(draws), b.lo) <= (|draws| - 1) / 5 < CountAtMost(MainSums(draws), b.lo)
    ensures |draws| > 0 ==>
      CountBelow(MainSums(draws), b.hi) <= 4 * (|draws| - 1) / 5 < CountAtMost(MainSums(draws), b.hi)
  {
    var sums := SortInts(MainSums(draws));
    if |sums| == 0 then Band(95, 185)
    else
      var p20, p80 := (|sums| - 1) / 5, 4 * (|sums| - 1) / 5;
      SortedRank(sums, p20);
      SortedRank(sums, p80);
      CountsPermutation(sums, MainSums(draws), sums[p20]);
      CountsPermutation(sums, MainSums(draws), sums[p80]);
      SameElements(sums, MainSums(draws));
      assert sums[p20] in sums && sums[p80] in sums;
      Band(sums[p20], sums[p80])
  }

  // ---------------------------------------------------------------------------
  // The seeded generator: `st = (1664525 * st + 1013904223) >>> 0`

  const TWO32: int := 0x1_0000_0000

  /** `(seed >>> 0) || 1`: the seed reduced to 32 bits, with 0 replaced by 1. */
  function SeedState(seed: int): (st: int)
    ensures 1 <= st < TWO32
    ensures st == seed % TWO32 || (seed % TWO32 == 0 && st == 1)
  {
    if seed % TWO32 == 0 then 1 else seed % TWO32
  }

  /** One step. The product stays below 2^53, so the float arithmetic of the
      source is exact and the step is this integer recurrence. */
  function LcgStep(st: int): (r: int)
    ensures 0 <= r < TWO32
  {
    (1664525 * st + 1013904223) % TWO32
  }

  /** The value returned for a state: `st / 2 ** 32`, in [0, 1). */
  function Uniform(st: int): (u: real)
    requires 0 <= st < TWO32
    ensures 0.0 <= u < 1.0
  {
    st as real / TWO32 as real
  }

  /** The inverse step: 4276115653 is the inverse of 1664525 modulo 2^32. */
  function LcgUnstep(st: int): (r: int)
    ensures 0 <= r < TWO32
  {
    (4276115653 * ((st - 1013904223) % TWO32)) % TWO32
  }

  lemma {:induction false} ModShift(r: int, k: int)
    ensures (k * TWO32 + r) % TWO32 == r % TWO32
  {
  }

  lemma {:induction false} ModMulRight(a: int, b: int)
    ensures (a * (b % TWO32)) % TWO32 == (a * b) % TWO32
  {
    var q := b / TWO32;
    assert a * b == (a * q) * TWO32 + a * (b % TWO32);
    ModShift(a * (b % TWO32), a * q);
  }

  /** Every state has exactly one predecessor: the step is a permutation of
      the 2^32 states, so the generator never merges two seeds' streams. */
  lemma {:induction false} StepInvertible(st: int)
    requires 0 <= st < TWO32
    ensures LcgUnstep(LcgStep(st)) == st
  {
    var y := LcgStep(st);
    var q := (1664525 * st + 1013904223) / TWO32;
    assert 1664525 * st + 1013904223 == q * TWO32 + y;
    assert y - 1013904223 == (-q) * TWO32 + 1664525 * st;
    ModShift(1664525 * st, -q);
    ModMulRight(4276115653, 1664525 * st);
    assert 4276115653 * (1664525 * st) == (1657219 * st) * TWO32 + st;
    ModShift(st, 1657219 * st);
  }

  /** Distinct states step to distinct states. */
  lemma {:induction false} StepInjective(a: int, b: int)
    requires 0 <= a < TWO32 && 0 <= b < TWO32
    requires LcgStep(a) == LcgStep(b)
    ensures a == b
  {
    StepInvertible(a);
    StepInvertible(b);
  }

  /** The closure `rng` together with its captured state `st`. */
  class Lcg {
    var st: int

    ghost predicate Valid()
      reads this
    {
      0 <= st < TWO32
    }

    constructor(seed: int)
      ensures Valid() && st == SeedState(seed)
    {
      st := SeedState(seed);
    }

    /** `rng()`: advance the state and return it scaled into [0, 1). */
    method Next() returns (u: real)
      requires Valid()
      modifies this
      ensures Valid() && st == LcgStep(old(st))
      ensures u == Uniform(st) && 0.0 <= u < 1.0
    {
      st := (1664525 * st + 1013904223) % TWO32;
      u := st as real / TWO32 as real;
    }
  }

  // ---------------------------------------------------------------------------
  // The pipeline after sampling

  function NegScore(t: Ticket): real
  {
    -t.score
  }

  /** `top` is made of the min(k, |pool|) best-scoring tickets of the pool. */
  ghost predicate TopBlock(pool: seq<Ticket>, top: seq<Ticket>, k: nat)
  {
    && |top| == Min(k, |pool|)
    && (forall t :: t in top ==> t in pool)
    && (forall p, q :: p in top && q in pool && q !in top ==> q.score <= p.score)
  }

  /** `pool.sort((a, b) => b.score - a.score).slice(0, k)`: the best k
      tickets, best first; the first one scores at least as high as any. */
  method TopByScore(pool: seq<Ticket>, k: nat) returns (top: seq<Ticket>)
    ensures TopBlock(pool, top, k)
    ensures SortedBy(top, NegScore)
    ensures |top| > 0 ==> forall q :: q in pool ==> q.score <= top[0].score
  {
    var sorted := SortBy(pool, NegScore);
    top := sorted[..Min(k, |pool|)];
    SortedTop(pool, sorted, k);
  }

  /** The first k entries of the pool sorted by descending score form its top block. */
  lemma {:induction false} SortedTop(pool: seq<Ticket>, sorted: seq<Ticket>, k: nat)
    requires multiset(sorted) == multiset(pool) && SortedBy(sorted, NegScore)
    ensures |sorted| == |pool|
    ensures TopBlock(pool, sorted[..Min(k, |pool|)], k)
    ensures SortedBy(sorted[..Min(k, |pool|)], NegScore)
    ensures |pool| > 0 && k > 0 ==> forall q :: q in pool ==> q.score <= sorted[0].score
  {
    assert |sorted| == |pool| by {
      assert |multiset(sorted)| == |multiset(pool)|;
    }
    var top := sorted[..Min(k, |pool|)];
    assert TopBlock(pool, top, k) by {
      SameElements(sorted, pool);
      SortedPrefix(sorted, NegScore, |top|);
      forall t | t in top
        ensures t in sorted
      {
        var j :| 0 <= j < |top| && top[j] == t;
        assert sorted[j] == t;
      }
    }
    if |pool| > 0 && k > 0 {
      SortedHead(pool, sorted);
    }
  }

  /** The head of the pool sorted by descending score scores at least as high as any ticket. */
  lemma {:induction false} SortedHead(pool: seq<Ticket>, sorted: seq<Ticket>)
    requires multiset(sorted) == multiset(pool) && SortedBy(sorted, NegScore) && |sorted| > 0
    ensures forall q :: q in pool ==> q.score <= sorted[0].score
  {
    forall q | q in pool
      ensures q.score <= sorted[0].score
    {
      assert q in multiset(sorted);
      var i :| 0 <= i < |sorted| && sorted[i] == q;
      assert NegScore(sorted[0]) <= NegScore(sorted[i]);
    }
  }

  /** The end of the `data` memo, given the sampled and scored pool: no
      history gives no picks; otherwise the pool sorted by descending score is
      cut to its best 200, diversified down to 5 and sorted by descending
      score again. The best ticket of the pool always leads the picks. */
  method Picks(draws: seq<Draw>, pool: seq<Ticket>) returns (picks: seq<Ticket>)
    ensures |draws| == 0 ==> picks == []
    ensures |draws| > 0 ==> |picks| == Min(5, |pool|)
    ensures SortedBy(picks, NegScore)
    ensures forall t :: t in picks ==> t in pool
    ensures |draws| > 0 ==> exists top, chosen :: TopBlock(pool, top, 200) && DiverseSelection(top, chosen, 5)
                                                 && multiset(picks) == multiset(chosen)
    ensures |draws| > 0 && |picks| > 0 ==> forall q :: q in pool ==> q.score <= picks[0].score
  {
    if |draws| == 0 {
      return [];
    }
    var top := TopByScore(pool, 200);
    var chosen := SelectDiverse(top, 5);
    picks := SortBy(chosen, NegScore);
    SameElements(picks, chosen);
    if |picks| > 0 {
      assert chosen[0] == top[0] && chosen[0] in picks;
      var j :| 0 <= j < |picks| && picks[j] == chosen[0];
      assert NegScore(picks[0]) <= NegScore(picks[j]);
    }
    assert TopBlock(pool, top, 200) && DiverseSelection(top, chosen, 5) && multiset(picks) == multiset(chosen);
  }
}
