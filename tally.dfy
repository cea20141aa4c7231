/**
 * The counting loop that the frequency views share: a zero-filled array of
 * `domainMax + 1` counters, one pass over every number of every draw, and an
 * increment for each number inside `1..domainMax`. It appears as
 * `computeMainFrequencies`/`computeEuroFrequencies` in the core package,
 * `computeFrequencies` in the advanced analytics view and `countFreq` in the
 * smart-pick generator.
 */
module Tally {
  import opened Seqs

  /** One bar of a frequency chart. */
  datatype FreqPoint = FreqPoint(num: int, freq: nat)

  /** `countFreq(draws, domainMax, accessor)`, with the accessor already applied:
      counter n holds how often n occurs among all the groups; counter 0 stays 0. */
  method CountFreq(groups: seq<seq<int>>, domainMax: nat) returns (cnt: seq<nat>)
    ensures |cnt| == domainMax + 1
    ensures cnt[0] == 0
    ensures forall n :: 1 <= n <= domainMax ==> cnt[n] == multiset(Flatten(groups))[n]
  {
    var c := new nat[domainMax + 1](_ => 0);
    var i := 0;
    while i < |groups|
      invariant 0 <= i <= |groups|
      invariant c[0] == 0
      invariant forall n :: 1 <= n <= domainMax ==> c[n] == multiset(Flatten(groups[..i]))[n]
    {
      FlattenSnoc(groups, i);
      CountGroup(c, groups[i], Flatten(groups[..i]));
      i := i + 1;
    }
    assert groups[..|groups|] == groups;
    cnt := c[..];
  }

  /** The inner loop over the numbers of one draw: counters that held the
      counts of `seen` afterwards hold those of `seen + g`. */
  method CountGroup(c: array<nat>, g: seq<int>, ghost seen: seq<int>)
    requires c.Length >= 1 && c[0] == 0
    requires forall n :: 1 <= n < c.Length ==> c[n] == multiset(seen)[n]
    modifies c
    ensures c[0] == 0
    ensures forall n :: 1 <= n < c.Length ==> c[n] == multiset(seen + g)[n]
  {
    var j := 0;
    while j < |g|
      invariant 0 <= j <= |g|
      invariant c[0] == 0
      invariant forall n :: 1 <= n < c.Length ==> c[n] == multiset(seen + g[..j])[n]
    {
      var x := g[j];
      assert seen + g[..j + 1] == (seen + g[..j]) + [x];
      if 1 <= x < c.Length {
        c[x] := c[x] + 1;
      }
      j := j + 1;
    }
    assert g[..|g|] == g;
  }

  /** The loop `for (let n = 1; n <= domainMax; n++) out.push({ num: n, freq: cnt[n] })`. */
  method FreqPoints(cnt: seq<nat>, domainMax: nat) returns (out: seq<FreqPoint>)
    requires |cnt| == domainMax + 1
    ensures |out| == domainMax
    ensures forall i :: 0 <= i < domainMax ==> out[i] == FreqPoint(i + 1, cnt[i + 1])
  {
    out := [];
    var n := 1;
    while n <= domainMax
      invariant 1 <= n <= domainMax + 1
      invariant |out| == n - 1
      invariant forall i :: 0 <= i < n - 1 ==> out[i] == FreqPoint(i + 1, cnt[i + 1])
    {
      out := out + [FreqPoint(n, cnt[n])];
      n := n + 1;
    }
  }

  /** Height of all the bars together. */
  function SumFreqs(points: seq<FreqPoint>): nat
  {
    if |points| == 0 then 0 else SumFreqs(points[..|points| - 1]) + points[|points| - 1].freq
  }

  /** A chart whose bar n is the count of n in `s` adds up to the number of
      values of `s` inside `1..|points|`: out-of-range values are dropped and
      nothing is counted twice. */
  lemma {:induction false} FreqTotal(points: seq<FreqPoint>, s: seq<int>)
    requires forall i :: 0 <= i < |points| ==> points[i].freq == multiset(s)[i + 1]
    ensures SumFreqs(points) == CountInRange(s, 1, |points|)
  {
    FreqPrefixTotal(points, s, |points|);
    assert points[..|points|] == points;
    SumOfCountsIsCountInRange(s, 1, |points|);
  }

  lemma {:induction false} FreqPrefixTotal(points: seq<FreqPoint>, s: seq<int>, k: nat)
    requires k <= |points|
    requires forall i :: 0 <= i < |points| ==> points[i].freq == multiset(s)[i + 1]
    ensures SumFreqs(points[..k]) == SumOfCounts(s, 1, k)
  {
    if k > 0 {
      FreqPrefixTotal(points, s, k - 1);
      assert points[..k][..k - 1] == points[..k - 1];
    }
  }

  /** When every value lies in `1..domainMax` the bars add up to the number of values. */
  lemma {:induction false} FreqTotalInRange(points: seq<FreqPoint>, groups: seq<seq<int>>, domainMax: nat, len: nat)
    requires |points| == domainMax
    requires forall i :: 0 <= i < |points| ==> points[i].freq == multiset(Flatten(groups))[i + 1]
    requires forall i :: 0 <= i < |groups| ==> |groups[i]| == len && AllIn(groups[i], 1, domainMax)
    ensures SumFreqs(points) == len * |groups|
  {
    FreqTotal(points, Flatten(groups));
    FlattenAllIn(groups, 1, domainMax);
    CountInRangeAll(Flatten(groups), 1, domainMax);
    FlattenLength(groups, len);
  }

  /** The rows of the counter matrix, as sequences. */
  method Rows(m: array2<nat>) returns (mat: seq<seq<nat>>)
    ensures |mat| == m.Length0
    ensures forall i :: 0 <= i < m.Length0 ==> |mat[i]| == m.Length1
    ensures forall i, n :: 0 <= i < m.Length0 && 0 <= n < m.Length1 ==> mat[i][n] == m[i, n]
  {
    mat := seq(m.Length0, i requires 0 <= i < m.Length0 reads m =>
      seq(m.Length1, n requires 0 <= n < m.Length1 reads m => m[i, n]));
  }
}
