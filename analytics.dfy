/**
 * The chart series of packages/core/src/analytics.ts: how often each main and
 * each euro was drawn, the jackpot over time, and per prize class how often a
 * payout was recorded, its total and its average.
 */
module Analytics {
  import opened Seqs
  import opened JsText
  import opened Core
  import opened Tally

  datatype JackpotPoint = JackpotPoint(date: string, jackpot: real)

  datatype PrizeStat = PrizeStat(cls: PrizeClass, count: nat, total: real, avg: real)

  /** `computeMainFrequencies`: bar n is the number of times main n occurs in
      the history; mains outside 1..50 are not counted, so the bars add up to
      five per draw when every draw is well formed. */
  method ComputeMainFrequencies(draws: seq<Draw>) returns (out: seq<FreqPoint>)
    ensures |out| == MAIN_MAX
    ensures forall i :: 0 <= i < MAIN_MAX ==> out[i] == FreqPoint(i + 1, multiset(AllMains(draws))[i + 1])
    ensures SumFreqs(out) == CountInRange(AllMains(draws), 1, MAIN_MAX)
    ensures (forall i :: 0 <= i < |draws| ==> WellFormed(draws[i])) ==> SumFreqs(out) == 5 * |draws|
  {
    var cnt := CountFreq(MainGroups(draws), MAIN_MAX);
    out := FreqPoints(cnt, MAIN_MAX);
    FreqTotal(out, AllMains(draws));
    if forall i :: 0 <= i < |draws| ==> WellFormed(draws[i]) {
      FreqTotalInRange(out, MainGroups(draws), MAIN_MAX, 5);
    }
  }

  /** `computeEuroFrequencies`: the same chart for the euros 1..12, two per draw. */
  method ComputeEuroFrequencies(draws: seq<Draw>) returns (out: seq<FreqPoint>)
    ensures |out| == EURO_MAX
    ensures forall i :: 0 <= i < EURO_MAX ==> out[i] == FreqPoint(i + 1, multiset(Flatten(EuroGroups(draws)))[i + 1])
    ensures SumFreqs(out) == CountInRange(Flatten(EuroGroups(draws)), 1, EURO_MAX)
    ensures (forall i :: 0 <= i < |draws| ==> WellFormed(draws[i])) ==> SumFreqs(out) == 2 * |draws|
  {
    var cnt := CountFreq(EuroGroups(draws), EURO_MAX);
    out := FreqPoints(cnt, EURO_MAX);
    FreqTotal(out, Flatten(EuroGroups(draws)));
    if forall i :: 0 <= i < |draws| ==> WellFormed(draws[i]) {
      FreqTotalInRange(out, EuroGroups(draws), EURO_MAX, 2);
    }
  }

  /** The class-1 payout of a draw, 0 when none was recorded. */
  function JackpotOf(d: Draw): real
  {
    if 1 in d.gkl then d.gkl[1] else 0.0
  }

  function ToJackpotPoint(d: Draw): JackpotPoint
  {
    JackpotPoint(d.drawDate, JackpotOf(d))
  }

  function DrawDate(d: Draw): string
  {
    d.drawDate
  }

  function PointDate(p: JackpotPoint): string
  {
    p.date
  }

  /** `computeJackpotSeries`: a copy of the draws stably sorted by date, each
      turned into its (date, jackpot) point. The result is the per-draw points
      themselves put in date order: one point per draw, none invented, dates
      ascending, and draws of the same date kept in input order. */
  function ComputeJackpotSeries(draws: seq<Draw>): (r: seq<JackpotPoint>)
    ensures r == SortByText(MapSeq(draws, ToJackpotPoint), PointDate)
    ensures |r| == |draws|
    ensures SortedByText(r, PointDate)
    ensures multiset(r) == multiset(MapSeq(draws, ToJackpotPoint))
  {
    MapSortCommute(draws, ToJackpotPoint, DrawDate, PointDate);
    MapSeq(SortByText(draws, DrawDate), ToJackpotPoint)
  }

  /** Number of draws with a payout recorded for class k. */
  function ClassCount(draws: seq<Draw>, k: PrizeClass): nat
  {
    if |draws| == 0 then 0
    else ClassCount(draws[..|draws| - 1], k) + (if k in draws[|draws| - 1].gkl then 1 else 0)
  }

  /** Sum of the payouts recorded for class k. */
  function ClassTotal(draws: seq<Draw>, k: PrizeClass): real
  {
    if |draws| == 0 then 0.0
    else
      var d := draws[|draws| - 1];
      ClassTotal(draws[..|draws| - 1], k) + (if k in d.gkl then d.gkl[k] else 0.0)
  }

  /** The per-class counters after the draws `draws[..i]` have been folded in. */
  ghost predicate CountersAgree(counts: seq<nat>, totals: seq<real>, draws: seq<Draw>, lo: int)
    requires |counts| == 13 && |totals| == 13
  {
    forall k: PrizeClass :: lo <= k ==> counts[k] == ClassCount(draws, k) && totals[k] == ClassTotal(draws, k)
  }

  /** `computePrizeStats`: one entry per class 1..12 in order, with the number
      of draws that recorded a payout for it, their sum, and the mean (0 when
      no draw recorded one, so the mean times the count is always the total). */
  method ComputePrizeStats(draws: seq<Draw>) returns (out: seq<PrizeStat>)
    ensures |out| == 12
    ensures forall i :: 0 <= i < 12 ==>
      out[i].cls == i + 1 && out[i].count == ClassCount(draws, i + 1) && out[i].total == ClassTotal(draws, i + 1)
    ensures forall i :: 0 <= i < 12 ==> out[i].count <= |draws|
    ensures forall i :: 0 <= i < 12 ==> out[i].avg * out[i].count as real == out[i].total
    ensures forall i :: 0 <= i < 12 ==> out[i].count == 0 ==> out[i].avg == 0.0
  {
    var counts, totals := FoldDraws(draws);
    out := BuildStats(counts, totals, draws);
    ClassBounds(draws);
  }

  /** The first loop of `computePrizeStats`: fresh per-class counters (index 0
      unused) holding, for each class, how many draws recorded a payout and
      their sum. */
  method FoldDraws(draws: seq<Draw>) returns (counts: array<nat>, totals: array<real>)
    ensures fresh(counts) && fresh(totals)
    ensures counts.Length == 13 && totals.Length == 13
    ensures CountersAgree(counts[..], totals[..], draws, 1)
  {
    counts := new nat[13](_ => 0);
    totals := new real[13](_ => 0.0);
    var i := 0;
    while i < |draws|
      invariant 0 <= i <= |draws|
      invariant CountersAgree(counts[..], totals[..], draws[..i], 1)
    {
      assert draws[..i + 1] == draws[..i] + [draws[i]];
      FoldDraw(counts, totals, draws[..i], draws[i]);
      i := i + 1;
    }
    assert draws[..|draws|] == draws;
  }

  /** For every class: at most one recorded payout per draw, and no total without a record. */
  lemma {:induction false} ClassBounds(draws: seq<Draw>)
    ensures forall k: PrizeClass :: ClassCount(draws, k) <= |draws|
    ensures forall k: PrizeClass :: ClassCount(draws, k) == 0 ==> ClassTotal(draws, k) == 0.0
  {
    forall k: PrizeClass
      ensures ClassCount(draws, k) <= |draws|
      ensures ClassCount(draws, k) == 0 ==> ClassTotal(draws, k) == 0.0
    {
      ClassCountBound(draws, k);
      NoRecordNoTotal(draws, k);
    }
  }

  /** `count ? total / count : 0`: the mean of a class's payouts, which times
      the count gives the total back whenever a zero count means a zero total. */
  function Average(total: real, count: nat): (a: real)
    ensures count > 0 ==> a * count as real == total
    ensures count == 0 ==> a == 0.0
  {
    if count > 0 then total / count as real else 0.0
  }

  /** The closing loop of `computePrizeStats`: one entry per class from the
      folded counters. */
  method BuildStats(counts: array<nat>, totals: array<real>, ghost draws: seq<Draw>) returns (out: seq<PrizeStat>)
    requires counts.Length == 13 && totals.Length == 13
    requires CountersAgree(counts[..], totals[..], draws, 1)
    ensures |out| == 12
    ensures forall j :: 0 <= j < 12 ==>
      out[j].cls == j + 1 && out[j].count == ClassCount(draws, j + 1) && out[j].total == ClassTotal(draws, j + 1)
    ensures forall j :: 0 <= j < 12 ==>
      out[j].avg == Average(out[j].total, out[j].count)
  {
    out := [];
    var k := 1;
    while k <= 12
      invariant 1 <= k <= 13
      invariant |out| == k - 1
      invariant forall j :: 0 <= j < k - 1 ==>
        out[j].cls == j + 1 && out[j].count == ClassCount(draws, j + 1) && out[j].total == ClassTotal(draws, j + 1)
      invariant forall j :: 0 <= j < k - 1 ==>
        out[j].avg == Average(out[j].total, out[j].count)
    {
      var c, t := counts[k], totals[k];
      out := out + [PrizeStat(k, c, t, Average(t, c))];
      k := k + 1;
    }
  }

  /** The inner loop of `computePrizeStats`: fold one more draw into the
      per-class counters. */
  method FoldDraw(counts: array<nat>, totals: array<real>, ghost seen: seq<Draw>, d: Draw)
    requires counts.Length == 13 && totals.Length == 13
    requires CountersAgree(counts[..], totals[..], seen, 1)
    modifies counts, totals
    ensures CountersAgree(counts[..], totals[..], seen + [d], 1)
  {
    ghost var next := seen + [d];
    assert next[..|next| - 1] == seen;
    var k := 1;
    while k <= 12
      invariant 1 <= k <= 13
      invariant forall c: PrizeClass :: c < k ==>
        counts[c] == ClassCount(next, c) && totals[c] == ClassTotal(next, c)
      invariant CountersAgree(counts[..], totals[..], seen, k)
    {
      if k in d.gkl {
        counts[k] := counts[k] + 1;
        totals[k] := totals[k] + d.gkl[k];
      }
      k := k + 1;
    }
  }

  lemma {:induction false} ClassCountBound(draws: seq<Draw>, k: PrizeClass)
    ensures ClassCount(draws, k) <= |draws|
  {
    if |draws| > 0 {
      ClassCountBound(draws[..|draws| - 1], k);
    }
  }

  /** A class no draw recorded a payout for has total 0. */
  lemma {:induction false} NoRecordNoTotal(draws: seq<Draw>, k: PrizeClass)
    ensures ClassCount(draws, k) == 0 ==> ClassTotal(draws, k) == 0.0
  {
    if |draws| > 0 {
      NoRecordNoTotal(draws[..|draws| - 1], k);
    }
  }

  /** When every recorded payout of class k lies in `[lo, hi]`, so does the
      average of a class that was recorded at least once. */
  lemma {:induction false} AverageBetween(draws: seq<Draw>, k: PrizeClass, lo: real, hi: real)
    requires forall i :: 0 <= i < |draws| && k in draws[i].gkl ==> lo <= draws[i].gkl[k] <= hi
    requires ClassCount(draws, k) > 0
    ensures lo <= Average(ClassTotal(draws, k), ClassCount(draws, k)) <= hi
  {
    TotalBetween(draws, k, lo, hi);
    QuotientBetween(ClassTotal(draws, k), ClassCount(draws, k) as real, lo, hi);
  }

  lemma {:induction false} QuotientBetween(t: real, c: real, lo: real, hi: real)
    requires c > 0.0 && lo * c <= t <= hi * c
    ensures lo <= t / c <= hi
  {
    var a := t / c;
    assert a * c == t;
  }

  lemma {:induction false} TotalBetween(draws: seq<Draw>, k: PrizeClass, lo: real, hi: real)
    requires forall i :: 0 <= i < |draws| && k in draws[i].gkl ==> lo <= draws[i].gkl[k] <= hi
    ensures lo * ClassCount(draws, k) as real <= ClassTotal(draws, k) <= hi * ClassCount(draws, k) as real
  {
    if |draws| > 0 {
      TotalBetween(draws[..|draws| - 1], k, lo, hi);
    }
  }
}
