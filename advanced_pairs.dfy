/**
 * Co-occurrence metrics of the advanced analytics view
 * (apps/web/components/AdvancedAnalytics.tsx): the symmetric pair matrix and
 * its ranked upper triangle, the edge filter of the co-occurrence network,
 * the triplet ranking and the consecutive-pair counts. Every draw is first
 * reduced to its sorted distinct mains.
 */
module AdvancedPairs {
  import opened Seqs
  import opened Core
  import opened Tally

  // ---------------------------------------------------------------------------
  // Enumerating the pairs of a draw

  /** `(x, s[0]), (x, s[1]), ...`: the inner `j` loop for a fixed first element. */
  function PairsFrom(x: int, s: seq<int>): (r: seq<(int, int)>)
    ensures |r| == |s|
    ensures forall k :: 0 <= k < |s| ==> r[k] == (x, s[k])
  {
    if |s| == 0 then [] else [(x, s[0])] + PairsFrom(x, s[1..])
  }

  /** The pairs `(arr[i], arr[j])`, `i < j`, in the order of the two nested loops. */
  function PairSeq(arr: seq<int>): (r: seq<(int, int)>)
    ensures StrictlyIncreasing(arr) ==> forall k :: 0 <= k < |r| ==> r[k].0 in arr && r[k].1 in arr && r[k].0 < r[k].1
  {
    if |arr| == 0 then [] else PairsFrom(arr[0], arr[1..]) + PairSeq(arr[1..])
  }

  lemma {:induction false} PairsFromCount(x0: int, s: seq<int>, x: int, y: int)
    ensures multiset(PairsFrom(x0, s))[(x, y)] == if x == x0 then multiset(s)[y] else 0
  {
    if |s| > 0 {
      PairsFromCount(x0, s[1..], x, y);
      PairsFromStep(x0, s);
    }
  }

  lemma {:induction false} PairsFromStep(x0: int, s: seq<int>)
    requires |s| > 0
    ensures multiset(PairsFrom(x0, s)) == multiset{(x0, s[0])} + multiset(PairsFrom(x0, s[1..]))
    ensures multiset(s) == multiset{s[0]} + multiset(s[1..])
  {
    assert PairsFrom(x0, s) == [(x0, s[0])] + PairsFrom(x0, s[1..]);
    assert s == [s[0]] + s[1..];
  }

  /** Every pair of values of a strictly increasing sequence is enumerated exactly
      once, smaller value first. */
  lemma {:induction false} PairSeqCount(arr: seq<int>, x: int, y: int)
    requires StrictlyIncreasing(arr)
    ensures multiset(PairSeq(arr))[(x, y)] == if x in arr && y in arr && x < y then 1 else 0
  {
    if |arr| > 0 {
      var rest := arr[1..];
      assert arr == [arr[0]] + rest;
      PairSeqCount(rest, x, y);
      PairsFromCount(arr[0], rest, x, y);
      MultisetOfDistinct(rest, y);
      PairSplit(arr[0], rest, x, y);
    }
  }

  /** The head of a strictly increasing sequence is below every later value. */
  lemma {:induction false} HeadBelow(x0: int, rest: seq<int>)
    requires StrictlyIncreasing([x0] + rest)
    ensures forall z :: z in rest ==> x0 < z
  {
    var arr := [x0] + rest;
    forall z | z in rest
      ensures x0 < z
    {
      var k :| 0 <= k < |rest| && rest[k] == z;
      assert arr[k + 1] == z && arr[0] == x0;
    }
  }

  /** An increasing pair of `[x0] + rest` either starts at x0 and ends in rest,
      or lies inside rest. */
  lemma {:induction false} PairSplit(x0: int, rest: seq<int>, x: int, y: int)
    requires StrictlyIncreasing([x0] + rest)
    ensures (if x == x0 && y in rest then 1 else 0) + (if x in rest && y in rest && x < y then 1 else 0)
         == (if x in [x0] + rest && y in [x0] + rest && x < y then 1 else 0)
  {
    var arr := [x0] + rest;
    HeadBelow(x0, rest);
    assert forall z :: z in arr <==> z == x0 || z in rest;
  }

  /** A draw with k distinct mains contributes k(k-1)/2 pairs. */
  lemma {:induction false} PairSeqLength(arr: seq<int>)
    ensures |PairSeq(arr)| * 2 == |arr| * (|arr| - 1)
  {
    if |arr| > 0 {
      PairSeqLength(arr[1..]);
      assert |PairSeq(arr)| == (|arr| - 1) + |PairSeq(arr[1..])|;
      TriangleStep(|arr|, |PairSeq(arr[1..])|);
    }
  }

  lemma {:induction false} TriangleStep(k: int, p: int)
    requires p * 2 == (k - 1) * (k - 2)
    ensures ((k - 1) + p) * 2 == k * (k - 1)
  {
    assert (k - 1) * (k - 2) + 2 * (k - 1) == (k - 1) * k;
  }

  // ---------------------------------------------------------------------------
  // The pair matrix

  /** Number of draws that contain both a and b, for a != b. */
  function PairCount(draws: seq<Draw>, a: int, b: int): nat
  {
    if |draws| == 0 then 0
    else
      var z := draws[|draws| - 1].z;
      PairCount(draws[..|draws| - 1], a, b) + (if a != b && a in z && b in z then 1 else 0)
  }

  lemma {:induction false} PairCountSymmetric(draws: seq<Draw>, a: int, b: int)
    ensures PairCount(draws, a, b) == PairCount(draws, b, a)
    ensures PairCount(draws, a, a) == 0
  {
    if |draws| > 0 {
      PairCountSymmetric(draws[..|draws| - 1], a, b);
    }
  }

  /** How many times cell (a, b) is incremented by the first p pairs of ps. */
  function Contribution(ps: seq<(int, int)>, p: nat, a: int, b: int): nat
    requires p <= |ps|
  {
    if p == 0 then 0
    else Contribution(ps, p - 1, a, b) + (if ps[p - 1] == (a, b) then 1 else 0) + (if ps[p - 1] == (b, a) then 1 else 0)
  }

  lemma {:induction false} ContributionIsCount(ps: seq<(int, int)>, p: nat, a: int, b: int)
    requires p <= |ps|
    ensures Contribution(ps, p, a, b) == multiset(ps[..p])[(a, b)] + multiset(ps[..p])[(b, a)]
  {
    if p > 0 {
      ContributionIsCount(ps, p - 1, a, b);
      assert ps[..p] == ps[..p - 1] + [ps[p - 1]];
    }
  }

  /** One draw increments cell (a, b) once when it holds both a and b, else not at all. */
  lemma {:induction false} DrawContribution(arr: seq<int>, a: int, b: int)
    requires StrictlyIncreasing(arr)
    ensures Contribution(PairSeq(arr), |PairSeq(arr)|, a, b) == if a != b && a in arr && b in arr then 1 else 0
  {
    var ps := PairSeq(arr);
    ContributionIsCount(ps, |ps|, a, b);
    assert ps[..|ps|] == ps;
    PairSeqCount(arr, a, b);
    PairSeqCount(arr, b, a);
  }

  /** The two inner loops for one draw: `mat[a][b]++; mat[b][a]++` for each of its pairs. */
  method AddPairs(m: array2<nat>, ps: seq<(int, int)>, domainMax: nat)
    requires m.Length0 == domainMax + 1 && m.Length1 == domainMax + 1
    requires forall q :: 0 <= q < |ps| ==> 0 <= ps[q].0 <= domainMax && 0 <= ps[q].1 <= domainMax
    modifies m
    ensures forall a, b :: 0 <= a <= domainMax && 0 <= b <= domainMax ==>
      m[a, b] == old(m[a, b]) + Contribution(ps, |ps|, a, b)
  {
    var p := 0;
    while p < |ps|
      invariant 0 <= p <= |ps|
      invariant forall a, b :: 0 <= a <= domainMax && 0 <= b <= domainMax ==>
        m[a, b] == old(m[a, b]) + Contribution(ps, p, a, b)
    {
      var x, y := ps[p].0, ps[p].1;
      m[x, y] := m[x, y] + 1;
      m[y, x] := m[y, x] + 1;
      p := p + 1;
    }
  }

  /** The `mat[a][b]++; mat[b][a]++` loops shared by `computePairs` and the
      smart-pick `pairMatrix`: cell (a, b) ends up holding the number of draws
      containing both a and b, so the matrix is symmetric with a zero diagonal.
      The source indexes the matrix by the mains themselves, so every main must
      lie in `0..domainMax`. */
  method PairMatrixCounts(draws: seq<Draw>, domainMax: nat) returns (mat: seq<seq<nat>>)
    requires forall i :: 0 <= i < |draws| ==> AllIn(draws[i].z, 0, domainMax)
    ensures |mat| == domainMax + 1
    ensures forall a :: 0 <= a <= domainMax ==> |mat[a]| == domainMax + 1
    ensures forall a, b :: 0 <= a <= domainMax && 0 <= b <= domainMax ==> mat[a][b] == PairCount(draws, a, b)
    ensures forall a, b :: 0 <= a <= domainMax && 0 <= b <= domainMax ==> mat[a][b] == mat[b][a]
    ensures forall a :: 0 <= a <= domainMax ==> mat[a][a] == 0
  {
    var m := new nat[domainMax + 1, domainMax + 1]((_, _) => 0);
    var k := 0;
    while k < |draws|
      invariant 0 <= k <= |draws|
      invariant PairCountsAre(m, draws[..k])
    {
      assert draws[..k + 1] == draws[..k] + [draws[k]];
      AddDrawPairs(m, draws[..k], draws[k]);
      k := k + 1;
    }
    assert draws[..|draws|] == draws;
    mat := Rows(m);
    forall a, b | 0 <= a <= domainMax && 0 <= b <= domainMax
      ensures mat[a][b] == mat[b][a] && mat[a][a] == 0
    {
      PairCountSymmetric(draws, a, b);
    }
  }

  /** The counters hold the pair counts of `draws`. */
  ghost predicate PairCountsAre(m: array2<nat>, draws: seq<Draw>)
    reads m
  {
    forall a, b :: 0 <= a < m.Length0 && 0 <= b < m.Length1 ==> m[a, b] == PairCount(draws, a, b)
  }

  /** One pass of the outer loop: the pairs of one more draw are added. */
  method AddDrawPairs(m: array2<nat>, ghost seen: seq<Draw>, d: Draw)
    requires m.Length0 == m.Length1 && m.Length0 >= 1
    requires AllIn(d.z, 0, m.Length0 - 1)
    requires PairCountsAre(m, seen)
    modifies m
    ensures PairCountsAre(m, seen + [d])
  {
    var domainMax := m.Length0 - 1;
    var arr := SortedUnique(d.z);
    var ps := PairSeq(arr);
    assert forall q :: 0 <= q < |ps| ==> ps[q].0 in d.z && ps[q].1 in d.z;
    AddPairs(m, ps, domainMax);
    forall a, b | 0 <= a <= domainMax && 0 <= b <= domainMax
      ensures m[a, b] == PairCount(seen + [d], a, b)
    {
      DrawContribution(arr, a, b);
      PairCountSnoc(seen, d, a, b);
    }
  }

  lemma {:induction false} PairCountSnoc(seen: seq<Draw>, d: Draw, a: int, b: int)
    ensures PairCount(seen + [d], a, b) == PairCount(seen, a, b) + (if a != b && a in d.z && b in d.z then 1 else 0)
  {
    assert (seen + [d])[..|seen|] == seen;
  }

  // ---------------------------------------------------------------------------
  // Ranking the upper triangle

  datatype PairEntry = PairEntry(a: int, b: int, count: nat)

  /** Sort key for "largest count first". */
  function NegCount(e: PairEntry): real
  {
    -(e.count as real)
  }

  ghost predicate SquareMatrix(mat: seq<seq<nat>>, domainMax: nat)
  {
    |mat| == domainMax + 1 && forall a :: 0 <= a <= domainMax ==> |mat[a]| == domainMax + 1
  }

  ghost predicate Qualifies(mat: seq<seq<nat>>, domainMax: nat, minWeight: int, e: PairEntry)
    requires SquareMatrix(mat, domainMax)
  {
    1 <= e.a < e.b <= domainMax && e.count == mat[e.a][e.b] && e.count >= minWeight
  }

  /** The inner loop `for (b = from; b <= domainMax; b++) if (mat[a][b] >= minWeight) push`. */
  function RowEdges(mat: seq<seq<nat>>, domainMax: nat, a: nat, from: nat, minWeight: int): (r: seq<PairEntry>)
    requires SquareMatrix(mat, domainMax) && 1 <= a < from
    ensures forall e :: e in r <==> e.a == a && from <= e.b <= domainMax && Qualifies(mat, domainMax, minWeight, e)
    ensures EdgesAscending(r)
    decreases domainMax + 1 - from
  {
    if from > domainMax || a > domainMax then []
    else
      var head := if mat[a][from] >= minWeight then [PairEntry(a, from, mat[a][from])] else [];
      var tail := RowEdges(mat, domainMax, a, from + 1, minWeight);
      HeadBeforeTail(head, tail, a, from);
      EdgesAscendingAppend(head, tail);
      head + tail
  }

  lemma {:induction false} HeadBeforeTail(head: seq<PairEntry>, tail: seq<PairEntry>, a: int, b: int)
    requires forall e :: e in head ==> e.a == a && e.b == b
    requires forall f :: f in tail ==> f.a == a && f.b > b
    ensures forall e, f :: e in head && f in tail ==> EdgeBefore(e, f)
  {
  }

  /** The two nested loops over `1 <= a < b <= domainMax`, keeping the cells of
      weight at least minWeight, in loop order. */
  function UpperEdges(mat: seq<seq<nat>>, domainMax: nat, from: nat, minWeight: int): (r: seq<PairEntry>)
    requires SquareMatrix(mat, domainMax) && 1 <= from
    ensures forall e :: e in r <==> from <= e.a && Qualifies(mat, domainMax, minWeight, e)
    ensures EdgesAscending(r)
    decreases domainMax + 1 - from
  {
    if from > domainMax then []
    else
      var row := RowEdges(mat, domainMax, from, from + 1, minWeight);
      var rest := UpperEdges(mat, domainMax, from + 1, minWeight);
      RowBeforeRest(row, rest, from);
      EdgesAscendingAppend(row, rest);
      row + rest
  }

  /** `e` comes before `f` in the loop order of `a`, then `b`. */
  predicate EdgeBefore(e: PairEntry, f: PairEntry)
  {
    e.a < f.a || (e.a == f.a && e.b < f.b)
  }

  ghost predicate EdgesAscending(r: seq<PairEntry>)
  {
    forall i, j :: 0 <= i < j < |r| ==> EdgeBefore(r[i], r[j])
  }

  lemma {:induction false} EdgesAscendingAppend(x: seq<PairEntry>, y: seq<PairEntry>)
    requires EdgesAscending(x) && EdgesAscending(y)
    requires forall e, f :: e in x && f in y ==> EdgeBefore(e, f)
    ensures EdgesAscending(x + y)
  {
    forall i, j | 0 <= i < j < |x + y|
      ensures EdgeBefore((x + y)[i], (x + y)[j])
    {
      if j < |x| {
        assert (x + y)[i] == x[i] && (x + y)[j] == x[j];
      } else if i >= |x| {
        assert (x + y)[i] == y[i - |x|] && (x + y)[j] == y[j - |x|];
      } else {
        assert (x + y)[i] == x[i] && (x + y)[j] == y[j - |x|];
      }
    }
  }

  /** Cells listed in loop order are listed once. */
  lemma {:induction false} AscendingDistinct(r: seq<PairEntry>)
    requires EdgesAscending(r)
    ensures Distinct(r)
  {
    forall i, j | 0 <= i < j < |r|
      ensures r[i] != r[j]
    {
      assert EdgeBefore(r[i], r[j]);
    }
  }

  lemma {:induction false} RowBeforeRest(row: seq<PairEntry>, rest: seq<PairEntry>, a: int)
    requires forall e :: e in row ==> e.a == a
    requires forall f :: f in rest ==> f.a > a
    ensures forall e, f :: e in row && f in rest ==> EdgeBefore(e, f)
  {
  }

  /** `computePairs`: the pair matrix, and `top`, the cells a < b with a
      non-zero count ranked by count, largest first. */
  method ComputePairs(draws: seq<Draw>, domainMax: nat) returns (mat: seq<seq<nat>>, top: seq<PairEntry>)
    requires forall i :: 0 <= i < |draws| ==> AllIn(draws[i].z, 0, domainMax)
    ensures SquareMatrix(mat, domainMax)
    ensures forall a, b :: 0 <= a <= domainMax && 0 <= b <= domainMax ==> mat[a][b] == PairCount(draws, a, b)
    ensures forall e :: e in top <==> 1 <= e.a < e.b <= domainMax && e.count == PairCount(draws, e.a, e.b) && e.count > 0
    ensures forall i, j :: 0 <= i < j < |top| ==> top[i].count >= top[j].count
    ensures Distinct(top)
  {
    mat := PairMatrixCounts(draws, domainMax);
    var upper := UpperEdges(mat, domainMax, 1, 1);
    top := SortBy(upper, NegCount);
    SameElements(top, upper);
    AscendingDistinct(upper);
    PermutationDistinct(top, upper);
    PrefixDominates(top, |top|);
  }

  /** The edge filter of `buildCoOccurrenceNetwork`: the cells a < b of weight
      at least minWeight, ranked by weight, cut to the first topEdges. It keeps
      as many edges as it may; an edge it drops weighs no more than any it keeps. */
  function NetworkEdges(mat: seq<seq<nat>>, domainMax: nat, minWeight: int, topEdges: nat): (r: seq<PairEntry>)
    requires SquareMatrix(mat, domainMax)
    ensures forall e :: e in r ==> Qualifies(mat, domainMax, minWeight, e)
    ensures |r| == Min(topEdges, |UpperEdges(mat, domainMax, 1, minWeight)|)
    ensures forall i, j :: 0 <= i < j < |r| ==> r[i].count >= r[j].count
    ensures forall e :: Qualifies(mat, domainMax, minWeight, e) && e !in r ==>
      forall f :: f in r ==> e.count <= f.count
    ensures Distinct(r)
  {
    var upper := UpperEdges(mat, domainMax, 1, minWeight);
    var sorted := SortBy(upper, NegCount);
    var r := sorted[..Min(topEdges, |sorted|)];
    SameElements(sorted, upper);
    AscendingDistinct(upper);
    PermutationDistinct(sorted, upper);
    PrefixDominates(sorted, |r|);
    r
  }

  /** In a list ranked by count, the first k are in order and an element after
      them weighs no more than any of them. */
  lemma {:induction false} PrefixDominates(s: seq<PairEntry>, k: nat)
    requires SortedBy(s, NegCount) && k <= |s|
    ensures forall i, j :: 0 <= i < j < k ==> s[i].count >= s[j].count
    ensures forall e, f :: e in s && e !in s[..k] && f in s[..k] ==> e.count <= f.count
  {
    forall i, j | 0 <= i < j < k
      ensures s[i].count >= s[j].count
    {
      assert NegCount(s[i]) <= NegCount(s[j]);
    }
    SortedPrefix(s, NegCount, k);
  }

  // ---------------------------------------------------------------------------
  // Triplets

  /** A triplet key `${a},${b},${c}`; the decimal rendering joined by commas is
      one-to-one, so the key is kept as the triple itself. */
  type Triple = (int, int, int)

  datatype TripleEntry = TripleEntry(key: Triple, count: nat)

  function NegTripleCount(e: TripleEntry): real
  {
    -(e.count as real)
  }

  /** `(x, p.0, p.1)` for each pair p. */
  function TriplesFrom(x: int, ps: seq<(int, int)>): (r: seq<Triple>)
    ensures |r| == |ps|
    ensures forall k :: 0 <= k < |ps| ==> r[k] == (x, ps[k].0, ps[k].1)
  {
    if |ps| == 0 then [] else [(x, ps[0].0, ps[0].1)] + TriplesFrom(x, ps[1..])
  }

  /** The triples `(arr[i], arr[j], arr[k])`, `i < j < k`, in the order of the
      three nested loops. */
  function TripleSeq(arr: seq<int>): seq<Triple>
  {
    if |arr| == 0 then [] else TriplesFrom(arr[0], PairSeq(arr[1..])) + TripleSeq(arr[1..])
  }

  lemma {:induction false} TriplesFromCount(x0: int, ps: seq<(int, int)>, t: Triple)
    ensures multiset(TriplesFrom(x0, ps))[t] == if t.0 == x0 then multiset(ps)[(t.1, t.2)] else 0
  {
    if |ps| > 0 {
      TriplesFromCount(x0, ps[1..], t);
      TriplesFromStep(x0, ps);
    }
  }

  lemma {:induction false} TriplesFromStep(x0: int, ps: seq<(int, int)>)
    requires |ps| > 0
    ensures multiset(TriplesFrom(x0, ps)) == multiset{(x0, ps[0].0, ps[0].1)} + multiset(TriplesFrom(x0, ps[1..]))
    ensures multiset(ps) == multiset{ps[0]} + multiset(ps[1..])
  {
    assert TriplesFrom(x0, ps) == [(x0, ps[0].0, ps[0].1)] + TriplesFrom(x0, ps[1..]);
    assert ps == [ps[0]] + ps[1..];
  }

  /** Every increasing triple of values of a strictly increasing sequence is
      enumerated exactly once. */
  lemma {:induction false} TripleSeqCount(arr: seq<int>, t: Triple)
    requires StrictlyIncreasing(arr)
    ensures multiset(TripleSeq(arr))[t] == if t.0 in arr && t.1 in arr && t.2 in arr && t.0 < t.1 < t.2 then 1 else 0
  {
    if |arr| > 0 {
      var rest := arr[1..];
      assert arr == [arr[0]] + rest;
      TripleSeqCount(rest, t);
      TriplesFromCount(arr[0], PairSeq(rest), t);
      PairSeqCount(rest, t.1, t.2);
      TripleSplit(arr[0], rest, t);
    }
  }

  /** An increasing triple of `[x0] + rest` either starts at x0 and continues
      with a pair of rest, or lies inside rest. */
  lemma {:induction false} TripleSplit(x0: int, rest: seq<int>, t: Triple)
    requires StrictlyIncreasing([x0] + rest)
    ensures (if t.0 == x0 && t.1 in rest && t.2 in rest && t.1 < t.2 then 1 else 0)
          + (if t.0 in rest && t.1 in rest && t.2 in rest && t.0 < t.1 < t.2 then 1 else 0)
         == (if t.0 in [x0] + rest && t.1 in [x0] + rest && t.2 in [x0] + rest && t.0 < t.1 < t.2 then 1 else 0)
  {
    var arr := [x0] + rest;
    HeadBelow(x0, rest);
    assert forall y :: y in arr <==> y == x0 || y in rest;
  }

  /** Number of draws containing the three values of an increasing triple. */
  function TripleCount(draws: seq<Draw>, t: Triple): nat
  {
    if |draws| == 0 then 0
    else
      var z := draws[|draws| - 1].z;
      TripleCount(draws[..|draws| - 1], t) + (if t.0 < t.1 < t.2 && t.0 in z && t.1 in z && t.2 in z then 1 else 0)
  }

  /** `map.get(key) ?? 0`. */
  function Lookup(m: map<Triple, nat>, t: Triple): nat
  {
    if t in m then m[t] else 0
  }

  /** The insertion-ordered map after some draws: `order` lists its keys in the
      order they were first set, and no key is stored with a zero count. */
  ghost predicate TripleMap(m: map<Triple, nat>, order: seq<Triple>)
  {
    Distinct(order) && (forall t :: t in m <==> t in order) && (forall t :: t in m ==> m[t] > 0)
  }

  /** The three nested loops of one draw: `map.set(key, (map.get(key) ?? 0) + 1)`
      for each of its triples, a new key going to the end of the order. */
  method AddTriples(m0: map<Triple, nat>, order0: seq<Triple>, ts: seq<Triple>) returns (m: map<Triple, nat>, order: seq<Triple>)
    requires TripleMap(m0, order0)
    ensures TripleMap(m, order)
    ensures forall t :: Lookup(m, t) == Lookup(m0, t) + multiset(ts)[t]
  {
    m, order := m0, order0;
    var q := 0;
    assert ts[..0] == [];
    while q < |ts|
      invariant 0 <= q <= |ts|
      invariant TriplesAfter(m, order, m0, ts, q)
    {
      var key := ts[q];
      ghost var mPrev, orderPrev := m, order;
      if key in m {
        m := m[key := m[key] + 1];
      } else {
        m := m[key := 1];
        order := order + [key];
      }
      TriplesStep(mPrev, orderPrev, m0, ts, q, m, order);
      q := q + 1;
    }
    assert ts[..|ts|] == ts;
  }

  /** The state of that loop after the first q triples. */
  ghost predicate TriplesAfter(m: map<Triple, nat>, order: seq<Triple>, m0: map<Triple, nat>, ts: seq<Triple>, q: nat)
    requires q <= |ts|
  {
    TripleMap(m, order) && forall t :: Lookup(m, t) == Lookup(m0, t) + multiset(ts[..q])[t]
  }

  lemma {:induction false} TriplesStep(m: map<Triple, nat>, order: seq<Triple>, m0: map<Triple, nat>, ts: seq<Triple>, q: nat, m': map<Triple, nat>, order': seq<Triple>)
    requires q < |ts| && TriplesAfter(m, order, m0, ts, q)
    requires m' == m[ts[q] := Lookup(m, ts[q]) + 1]
    requires order' == if ts[q] in m then order else order + [ts[q]]
    ensures TriplesAfter(m', order', m0, ts, q + 1)
  {
    BumpStep(m, order, ts[q], m', order');
    PrefixMultisetStep(ts, q);
  }

  /** One `map.set(key, (map.get(key) ?? 0) + 1)` keeps the insertion-ordered
      map well formed and adds one to the count of that key only. */
  lemma {:induction false} BumpStep(m: map<Triple, nat>, order: seq<Triple>, key: Triple, m': map<Triple, nat>, order': seq<Triple>)
    requires TripleMap(m, order)
    requires m' == m[key := Lookup(m, key) + 1]
    requires order' == if key in m then order else order + [key]
    ensures TripleMap(m', order')
    ensures forall t :: Lookup(m', t) == Lookup(m, t) + (if t == key then 1 else 0)
  {
    if key !in m {
      assert forall i :: 0 <= i < |order| ==> order[i] != key;
    }
  }

  /** `computeTriplets(draws, domainMax, topN)`: the increasing triples of
      distinct mains that occur together in some draw, each with the number of
      draws containing all three, ranked by that number, largest first, and cut
      to the first topN. No triple appears twice; when fewer than topN are
      returned none was left out, and a triple left out occurs in no more draws
      than any returned one. */
  method ComputeTriplets(draws: seq<Draw>, topN: nat) returns (r: seq<TripleEntry>)
    ensures |r| <= topN
    ensures forall e :: e in r ==> e.key.0 < e.key.1 < e.key.2 && e.count == TripleCount(draws, e.key) && e.count > 0
    ensures forall i, j :: 0 <= i < j < |r| ==> r[i].count >= r[j].count
    ensures forall i, j :: 0 <= i < j < |r| ==> r[i].key != r[j].key
    ensures |r| < topN ==> forall t :: TripleCount(draws, t) > 0 ==> TripleEntry(t, TripleCount(draws, t)) in r
    ensures forall t :: TripleCount(draws, t) > 0 && TripleEntry(t, TripleCount(draws, t)) !in r ==>
      forall f :: f in r ==> TripleCount(draws, t) <= f.count
  {
    var m: map<Triple, nat> := map[];
    var order: seq<Triple> := [];
    var k := 0;
    while k < |draws|
      invariant 0 <= k <= |draws|
      invariant TripleMap(m, order)
      invariant forall t :: Lookup(m, t) == TripleCount(draws[..k], t)
    {
      var arr := SortedUnique(draws[k].z);
      var ts := TripleSeq(arr);
      m, order := AddTriples(m, order, ts);
      assert draws[..k + 1][..k] == draws[..k];
      forall t
        ensures Lookup(m, t) == TripleCount(draws[..k + 1], t)
      {
        TripleSeqCount(arr, t);
      }
      k := k + 1;
    }
    assert draws[..|draws|] == draws;
    var entries := seq(|order|, i requires 0 <= i < |order| => TripleEntry(order[i], m[order[i]]));
    var sorted := SortBy(entries, NegTripleCount);
    r := sorted[..Min(topN, |sorted|)];
    RankedTriples(draws, m, order, entries, sorted, r);
  }

  lemma {:induction false} RankedTriples(draws: seq<Draw>, m: map<Triple, nat>, order: seq<Triple>,
                      entries: seq<TripleEntry>, sorted: seq<TripleEntry>, r: seq<TripleEntry>)
    requires TripleMap(m, order)
    requires forall t :: Lookup(m, t) == TripleCount(draws, t)
    requires |entries| == |order| && forall i :: 0 <= i < |order| ==> entries[i] == TripleEntry(order[i], m[order[i]])
    requires SortedBy(sorted, NegTripleCount) && multiset(sorted) == multiset(entries)
    requires |r| <= |sorted| && r == sorted[..|r|]
    ensures forall e :: e in r ==> e.key.0 < e.key.1 < e.key.2 && e.count == TripleCount(draws, e.key) && e.count > 0
    ensures forall i, j :: 0 <= i < j < |r| ==> r[i].count >= r[j].count
    ensures forall i, j :: 0 <= i < j < |r| ==> r[i].key != r[j].key
    ensures |r| == |sorted| ==> forall t :: TripleCount(draws, t) > 0 ==> TripleEntry(t, TripleCount(draws, t)) in r
    ensures forall t :: TripleCount(draws, t) > 0 && TripleEntry(t, TripleCount(draws, t)) !in r ==>
      forall f :: f in r ==> TripleCount(draws, t) <= f.count
  {
    SameElements(sorted, entries);
    TripleEntriesMembers(draws, m, order, entries);
    assert sorted[..|sorted|] == sorted;
    forall i, j | 0 <= i < j < |r|
      ensures r[i].count >= r[j].count
    {
      assert NegTripleCount(sorted[i]) <= NegTripleCount(sorted[j]);
    }
    SortedPrefix(sorted, NegTripleCount, |r|);
    TripleEntriesDistinct(m, order, entries, sorted);
  }

  /** The map's entries are exactly the increasing triples that occur in some
      draw, each with its number of draws. */
  lemma {:induction false} TripleEntriesMembers(draws: seq<Draw>, m: map<Triple, nat>, order: seq<Triple>, entries: seq<TripleEntry>)
    requires TripleMap(m, order)
    requires forall t :: Lookup(m, t) == TripleCount(draws, t)
    requires |entries| == |order| && forall i :: 0 <= i < |order| ==> entries[i] == TripleEntry(order[i], m[order[i]])
    ensures forall e :: e in entries ==> e.key.0 < e.key.1 < e.key.2 && e.count == TripleCount(draws, e.key) && e.count > 0
    ensures forall t :: TripleCount(draws, t) > 0 ==> TripleEntry(t, TripleCount(draws, t)) in entries
  {
    forall e | e in entries
      ensures e.key.0 < e.key.1 < e.key.2 && e.count == TripleCount(draws, e.key) && e.count > 0
    {
      TripleCountIncreasing(draws, e.key);
    }
    forall t | TripleCount(draws, t) > 0
      ensures TripleEntry(t, TripleCount(draws, t)) in entries
    {
      assert t in order;
      var i :| 0 <= i < |order| && order[i] == t;
      assert entries[i] == TripleEntry(t, TripleCount(draws, t));
    }
  }

  /** Sorting the entries keeps their keys distinct. */
  lemma {:induction false} TripleEntriesDistinct(m: map<Triple, nat>, order: seq<Triple>, entries: seq<TripleEntry>, sorted: seq<TripleEntry>)
    requires TripleMap(m, order)
    requires |entries| == |order| && forall i :: 0 <= i < |order| ==> entries[i] == TripleEntry(order[i], m[order[i]])
    requires multiset(sorted) == multiset(entries)
    ensures forall i, j :: 0 <= i < j < |sorted| ==> sorted[i].key != sorted[j].key
  {
    EntriesDistinct(m, order, entries);
    forall x
      ensures multiset(sorted)[x] <= 1
    {
      MultisetOfDistinct(entries, x);
    }
    DistinctOfMultiset(sorted);
    SameElements(sorted, entries);
    forall i, j | 0 <= i < j < |sorted|
      ensures sorted[i].key != sorted[j].key
    {
      assert sorted[i] in entries && sorted[j] in entries;
    }
  }

  lemma {:induction false} EntriesDistinct(m: map<Triple, nat>, order: seq<Triple>, entries: seq<TripleEntry>)
    requires TripleMap(m, order)
    requires |entries| == |order| && forall i :: 0 <= i < |order| ==> entries[i] == TripleEntry(order[i], m[order[i]])
    ensures Distinct(entries)
    ensures forall e, f :: e in entries && f in entries && e.key == f.key ==> e == f
  {
  }

  lemma {:induction false} TripleCountIncreasing(draws: seq<Draw>, t: Triple)
    ensures TripleCount(draws, t) > 0 ==> t.0 < t.1 < t.2
  {
    if |draws| > 0 {
      TripleCountIncreasing(draws[..|draws| - 1], t);
    }
  }

  // ---------------------------------------------------------------------------
  // Consecutive pairs

  /** Number of draws that contain both a and a + 1. */
  function ConsecCount(draws: seq<Draw>, a: int): nat
  {
    if |draws| == 0 then 0
    else
      var z := draws[|draws| - 1].z;
      ConsecCount(draws[..|draws| - 1], a) + (if a in z && a + 1 in z then 1 else 0)
  }

  /** Number of elements x of s for which x + 1 occurs in `whole`. */
  function SuccCount(s: seq<int>, whole: seq<int>): nat
  {
    if |s| == 0 then 0 else SuccCount(s[..|s| - 1], whole) + (if s[|s| - 1] + 1 in whole then 1 else 0)
  }

  /** Over all draws, the number of distinct mains whose successor was drawn too. */
  function ConsecTotal(draws: seq<Draw>): nat
  {
    if |draws| == 0 then 0
    else
      var s := SortedUnique(draws[|draws| - 1].z);
      ConsecTotal(draws[..|draws| - 1]) + SuccCount(s, s)
  }

  function LookupInt(m: map<int, nat>, a: int): nat
  {
    if a in m then m[a] else 0
  }

  /** In a strictly increasing sequence, `s[i + 1] == s[i] + 1` holds exactly when
      `s[i] + 1` occurs at all: there is no room for it anywhere else. */
  lemma {:induction false} SuccAdjacent(s: seq<int>, i: nat)
    requires StrictlyIncreasing(s) && i < |s|
    ensures (i + 1 < |s| && s[i + 1] == s[i] + 1) <==> s[i] + 1 in s
  {
    if s[i] + 1 in s {
      var q :| 0 <= q < |s| && s[q] == s[i] + 1;
      assert q > i;
      assert s[i] < s[i + 1] <= s[q];
    }
  }

  /** After the first i positions of s, counter a has grown by one exactly when
      a is among them and a + 1 occurs in s. */
  ghost predicate CountsAfter(counts: map<int, nat>, counts0: map<int, nat>, s: seq<int>, i: nat)
    requires i <= |s|
  {
    forall a :: LookupInt(counts, a) == LookupInt(counts0, a) + (if a in s[..i] && a + 1 in s then 1 else 0)
  }

  lemma {:induction false} ConsecStep(counts: map<int, nat>, counts0: map<int, nat>, s: seq<int>, i: nat)
    requires StrictlyIncreasing(s) && i < |s| && CountsAfter(counts, counts0, s, i)
    ensures CountsAfter(if s[i] + 1 in s then counts[s[i] := LookupInt(counts, s[i]) + 1] else counts, counts0, s, i + 1)
  {
    assert s[..i + 1] == s[..i] + [s[i]];
    assert s[i] !in s[..i];
  }

  /** The loop `for (i = 0; i < s.length - 1; i++) if (s[i + 1] === s[i] + 1) { totalPairs++; counts[key]++ }`
      over one draw's sorted distinct mains. */
  method AddConsecutive(total0: nat, counts0: map<int, nat>, s: seq<int>) returns (total: nat, counts: map<int, nat>)
    requires StrictlyIncreasing(s)
    requires forall a :: a in counts0 ==> counts0[a] > 0
    ensures forall a :: a in counts ==> counts[a] > 0
    ensures total == total0 + SuccCount(s, s)
    ensures forall a :: LookupInt(counts, a) == LookupInt(counts0, a) + (if a in s && a + 1 in s then 1 else 0)
  {
    total, counts := total0, counts0;
    var i := 0;
    while i + 1 < |s|
      invariant i == 0 || i < |s|
      invariant ConsecAfter(total, counts, total0, counts0, s, i)
    {
      var hit := s[i + 1] == s[i] + 1;
      ConsecLoopStep(total, counts, total0, counts0, s, i);
      if hit {
        total := total + 1;
        counts := counts[s[i] := LookupInt(counts, s[i]) + 1];
      }
      i := i + 1;
    }
    ConsecLoopEnd(total, counts, total0, counts0, s, i);
  }

  /** The state of that loop after the first i positions of s. */
  ghost predicate ConsecAfter(total: nat, counts: map<int, nat>, total0: nat, counts0: map<int, nat>, s: seq<int>, i: nat)
  {
    && i <= |s|
    && (forall a :: a in counts ==> counts[a] > 0)
    && total == total0 + SuccCount(s[..i], s)
    && CountsAfter(counts, counts0, s, i)
  }

  lemma {:induction false} ConsecLoopStep(total: nat, counts: map<int, nat>, total0: nat, counts0: map<int, nat>, s: seq<int>, i: nat)
    requires StrictlyIncreasing(s) && i + 1 < |s|
    requires ConsecAfter(total, counts, total0, counts0, s, i)
    ensures var hit := s[i + 1] == s[i] + 1;
      ConsecAfter(if hit then total + 1 else total,
                  if hit then counts[s[i] := LookupInt(counts, s[i]) + 1] else counts,
                  total0, counts0, s, i + 1)
  {
    SuccAdjacent(s, i);
    ConsecStep(counts, counts0, s, i);
    assert s[..i + 1][..i] == s[..i];
  }

  lemma {:induction false} ConsecLoopEnd(total: nat, counts: map<int, nat>, total0: nat, counts0: map<int, nat>, s: seq<int>, i: nat)
    requires StrictlyIncreasing(s) && (i == 0 || i < |s|) && i + 1 >= |s|
    requires ConsecAfter(total, counts, total0, counts0, s, i)
    requires forall a :: a in counts0 ==> counts0[a] > 0
    ensures forall a :: a in counts ==> counts[a] > 0
    ensures total == total0 + SuccCount(s, s)
    ensures forall a :: LookupInt(counts, a) == LookupInt(counts0, a) + (if a in s && a + 1 in s then 1 else 0)
  {
    if |s| > 0 {
      var n := |s| - 1;
      assert i == n;
      assert s[n] + 1 !in s by {
        SuccAdjacent(s, n);
      }
      assert total == total0 + SuccCount(s, s) by {
        assert s[..|s|] == s;
        assert s[..|s|][..n] == s[..n];
      }
      assert CountsAfter(counts, counts0, s, |s|) by {
        ConsecStep(counts, counts0, s, n);
      }
      assert s[..|s|] == s;
    } else {
      assert s[..i] == s;
    }
  }

  /** `computeConsecutive`: `counts` has an entry for each a such that some draw
      holds both a and a + 1, counting those draws; `totalPairs` is, summed
      over the draws, the number of distinct mains whose successor was also drawn. */
  method ComputeConsecutive(draws: seq<Draw>) returns (totalPairs: nat, counts: map<int, nat>)
    ensures totalPairs == ConsecTotal(draws)
    ensures forall a :: a in counts <==> ConsecCount(draws, a) > 0
    ensures forall a :: a in counts ==> counts[a] == ConsecCount(draws, a)
  {
    totalPairs, counts := 0, map[];
    var k := 0;
    while k < |draws|
      invariant 0 <= k <= |draws|
      invariant forall a :: a in counts ==> counts[a] > 0
      invariant totalPairs == ConsecTotal(draws[..k])
      invariant forall a :: LookupInt(counts, a) == ConsecCount(draws[..k], a)
    {
      var s := SortedUnique(draws[k].z);
      totalPairs, counts := AddConsecutive(totalPairs, counts, s);
      assert draws[..k + 1][..k] == draws[..k];
      forall a
        ensures LookupInt(counts, a) == ConsecCount(draws[..k + 1], a)
      {
        assert a in s <==> a in draws[k].z;
        assert a + 1 in s <==> a + 1 in draws[k].z;
      }
      k := k + 1;
    }
    assert draws[..|draws|] == draws;
  }
}
