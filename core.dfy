/**
 * The evaluation engine of packages/core/src/index.ts: the EuroJackpot prize
 * table and the fold that classifies a user's pick against every historical
 * draw and totals the payouts.
 */
module Core {
  import opened Seqs

  /** `PrizeClass = 1|2|...|12`; class 1 is the jackpot. */
  type PrizeClass = k: int | 1 <= k <= 12 witness 1

  const ALL_CLASSES: seq<PrizeClass> := [1, 2, 3, 4, 5, 6, 7, 8, 9, 10, 11, 12]

  /** One historical draw: its date (ISO `YYYY-MM-DD`), the mains `z`, the euros `e`
      and the payout per prize class where one was recorded. Payouts are exact
      reals (the source uses doubles). */
  datatype Draw = Draw(drawDate: string, z: seq<int>, e: seq<int>, gkl: map<PrizeClass, real>)

  const MAIN_MAX: int := 50
  const EURO_MAX: int := 12

  /** What the importer guarantees of every draw it produces: five mains in
      1..50 and two euros in 1..12. */
  predicate WellFormed(d: Draw)
  {
    |d.z| == 5 && |d.e| == 2 && AllIn(d.z, 1, MAIN_MAX) && AllIn(d.e, 1, EURO_MAX)
  }

  /** `draws.map(d => d.z)`. */
  function MainGroups(draws: seq<Draw>): (r: seq<seq<int>>)
    ensures |r| == |draws|
    ensures forall i :: 0 <= i < |draws| ==> r[i] == draws[i].z
  {
    if |draws| == 0 then [] else MainGroups(draws[..|draws| - 1]) + [draws[|draws| - 1].z]
  }

  /** `draws.map(d => d.e)`. */
  function EuroGroups(draws: seq<Draw>): (r: seq<seq<int>>)
    ensures |r| == |draws|
    ensures forall i :: 0 <= i < |draws| ==> r[i] == draws[i].e
  {
    if |draws| == 0 then [] else EuroGroups(draws[..|draws| - 1]) + [draws[|draws| - 1].e]
  }

  /** All mains of all draws, in draw order. */
  function AllMains(draws: seq<Draw>): seq<int>
  {
    Flatten(MainGroups(draws))
  }

  datatype Win = Win(date: string, cls: PrizeClass, amount: real)

  datatype EvaluationResult = EvaluationResult(
    classHits: map<PrizeClass, nat>,
    classTotals: map<PrizeClass, real>,
    grandTotal: real,
    bestClass: Option<PrizeClass>,
    wins: seq<Win>)

  /** The prize table as data: entry k - 1 is the (main matches, euro matches)
      combination that wins class k. */
  const PrizeTable: seq<(int, int)> :=
    [(5, 2), (5, 1), (5, 0), (4, 2), (4, 1), (4, 0), (3, 2), (2, 2), (3, 1), (3, 0), (1, 2), (2, 1)]

  /** `mapMatchToClass`: the chain of twelve tests. It agrees with the table:
      a class exactly for the listed combinations, and that class's entry. */
  function MapMatchToClass(mainMatches: int, euroMatches: int): (r: Option<PrizeClass>)
    ensures r.Some? <==> (mainMatches, euroMatches) in PrizeTable
    ensures r.Some? ==> PrizeTable[r.value - 1] == (mainMatches, euroMatches)
  {
    if mainMatches == 5 && euroMatches == 2 then Some(1)
    else if mainMatches == 5 && euroMatches == 1 then Some(2)
    else if mainMatches == 5 && euroMatches == 0 then Some(3)
    else if mainMatches == 4 && euroMatches == 2 then Some(4)
    else if mainMatches == 4 && euroMatches == 1 then Some(5)
    else if mainMatches == 4 && euroMatches == 0 then Some(6)
    else if mainMatches == 3 && euroMatches == 2 then Some(7)
    else if mainMatches == 2 && euroMatches == 2 then Some(8)
    else if mainMatches == 3 && euroMatches == 1 then Some(9)
    else if mainMatches == 3 && euroMatches == 0 then Some(10)
    else if mainMatches == 1 && euroMatches == 2 then Some(11)
    else if mainMatches == 2 && euroMatches == 1 then Some(12)
    else None
  }

  /** Every class is reached, by its own table entry and by no other. */
  lemma {:induction false} MapMatchToClassOnto(k: PrizeClass)
    ensures MapMatchToClass(PrizeTable[k - 1].0, PrizeTable[k - 1].1) == Some(k)
  {
  }

  lemma {:induction false} MapMatchToClassInjective(m1: int, e1: int, m2: int, e2: int)
    requires MapMatchToClass(m1, e1).Some?
    requires MapMatchToClass(m1, e1) == MapMatchToClass(m2, e2)
    ensures m1 == m2 && e1 == e2
  {
  }

  /** Combinations outside the table win nothing, e.g. 1+1, 2+0 and 0+2. */
  lemma {:induction false} UnlistedCombinationsLose(m: int, e: int)
    requires m < 0 || m > 5 || e < 0 || e > 2 || (m, e) in {(0, 0), (0, 1), (0, 2), (1, 0), (1, 1), (2, 0)}
    ensures MapMatchToClass(m, e) == None
  {
  }

  /** Number of entries of `xs` that are in `picks` (entries counted with repetition). */
  function MatchCount(xs: seq<int>, picks: set<int>): (r: nat)
    ensures r <= |xs|
  {
    if |xs| == 0 then 0
    else MatchCount(xs[..|xs| - 1], picks) + (if xs[|xs| - 1] in picks then 1 else 0)
  }

  /** The inner loops `for (const n of d.z) if (mainSet.has(n)) mainMatches++`. */
  method CountMatches(xs: seq<int>, picks: set<int>) returns (c: nat)
    ensures c == MatchCount(xs, picks)
  {
    c := 0;
    for i := 0 to |xs|
      invariant c == MatchCount(xs[..i], picks)
    {
      assert xs[..i + 1][..i] == xs[..i];
      if xs[i] in picks {
        c := c + 1;
      }
    }
    assert xs[..|xs|] == xs;
  }

  function ClassOf(d: Draw, mainSet: set<int>, euroSet: set<int>): Option<PrizeClass>
  {
    MapMatchToClass(MatchCount(d.z, mainSet), MatchCount(d.e, euroSet))
  }

  /** `d.gkl[klass] ?? 0`. */
  function Payout(d: Draw, k: PrizeClass): real
  {
    if k in d.gkl then d.gkl[k] else 0.0
  }

  /** The winning draws, in draw order, as the source's `wins` list. */
  function WinsOf(draws: seq<Draw>, mainSet: set<int>, euroSet: set<int>): seq<Win>
  {
    if |draws| == 0 then []
    else
      var d := draws[|draws| - 1];
      WinsOf(draws[..|draws| - 1], mainSet, euroSet) + DrawWin(d, mainSet, euroSet)
  }

  /** The win one draw contributes: none when its matches map to no class. */
  function DrawWin(d: Draw, mainSet: set<int>, euroSet: set<int>): seq<Win>
  {
    match ClassOf(d, mainSet, euroSet)
    case Some(k) => [Win(d.drawDate, k, Payout(d, k))]
    case None => []
  }

  function Hits(wins: seq<Win>, k: PrizeClass): nat
  {
    if |wins| == 0 then 0 else Hits(wins[..|wins| - 1], k) + (if wins[|wins| - 1].cls == k then 1 else 0)
  }

  function Totals(wins: seq<Win>, k: PrizeClass): real
  {
    if |wins| == 0 then 0.0
    else Totals(wins[..|wins| - 1], k) + (if wins[|wins| - 1].cls == k then wins[|wins| - 1].amount else 0.0)
  }

  function Amounts(wins: seq<Win>): real
  {
    if |wins| == 0 then 0.0 else Amounts(wins[..|wins| - 1]) + wins[|wins| - 1].amount
  }

  /** `bestClass`: the numerically lowest (most valuable) class among the wins. */
  function BestClass(wins: seq<Win>): (r: Option<PrizeClass>)
    ensures r.None? <==> |wins| == 0
    ensures r.Some? ==> (exists i :: 0 <= i < |wins| && wins[i].cls == r.value)
    ensures r.Some? ==> forall i :: 0 <= i < |wins| ==> r.value <= wins[i].cls
  {
    if |wins| == 0 then None
    else
      var w := wins[|wins| - 1];
      match BestClass(wins[..|wins| - 1])
      case None => Some(w.cls)
      case Some(c) => if w.cls < c then Some(w.cls) else Some(c)
  }

  /** The per-class records hold, for every class, its hit count and payout total
      over `wins`, with a key exactly for the classes that were hit. */
  ghost predicate RecordsAgree(classHits: map<PrizeClass, nat>, classTotals: map<PrizeClass, real>, wins: seq<Win>)
  {
    forall k: PrizeClass ::
      && (k in classHits <==> Hits(wins, k) > 0)
      && (k in classHits ==> classHits[k] == Hits(wins, k))
      && (k in classTotals <==> Hits(wins, k) > 0)
      && (k in classTotals ==> classTotals[k] == Totals(wins, k))
  }

  lemma {:induction false} RecordsStep(classHits: map<PrizeClass, nat>, classTotals: map<PrizeClass, real>, wins: seq<Win>, w: Win)
    requires RecordsAgree(classHits, classTotals, wins)
    ensures RecordsAgree(
      classHits[w.cls := (if w.cls in classHits then classHits[w.cls] else 0) + 1],
      classTotals[w.cls := (if w.cls in classTotals then classTotals[w.cls] else 0.0) + w.amount],
      wins + [w])
  {
    WinStep(wins, w);
    var hits' := classHits[w.cls := (if w.cls in classHits then classHits[w.cls] else 0) + 1];
    var totals' := classTotals[w.cls := (if w.cls in classTotals then classTotals[w.cls] else 0.0) + w.amount];
    forall k: PrizeClass
      ensures && (k in hits' <==> Hits(wins + [w], k) > 0)
              && (k in hits' ==> hits'[k] == Hits(wins + [w], k))
              && (k in totals' <==> Hits(wins + [w], k) > 0)
              && (k in totals' ==> totals'[k] == Totals(wins + [w], k))
    {
      if k == w.cls {
        assert Hits(wins + [w], k) == Hits(wins, k) + 1;
        assert Totals(wins + [w], k) == Totals(wins, k) + w.amount;
        assert k in classTotals ==> classTotals[k] == Totals(wins, k);
        assert k !in classTotals ==> Totals(wins, k) == 0.0 by {
          if k !in classTotals {
            NoHitsNoTotal(wins, k);
          }
        }
      } else {
        assert Hits(wins + [w], k) == Hits(wins, k);
        assert Totals(wins + [w], k) == Totals(wins, k);
      }
    }
  }

  lemma {:induction false} NoHitsNoTotal(wins: seq<Win>, k: PrizeClass)
    requires Hits(wins, k) == 0
    ensures Totals(wins, k) == 0.0
    decreases |wins|
  {
    if |wins| > 0 {
      NoHitsNoTotal(wins[..|wins| - 1], k);
    }
  }

  /** `evaluateNumbers`: one pass over the draws, updating the per-class hit and
      total records, the grand total, the best class and the list of wins. */
  method EvaluateNumbers(draws: seq<Draw>, userMain: seq<int>, userEuro: seq<int>) returns (res: EvaluationResult)
    ensures res.wins == WinsOf(draws, set x | x in userMain, set x | x in userEuro)
    ensures forall k: PrizeClass :: (k in res.classHits <==> Hits(res.wins, k) > 0)
    ensures forall k: PrizeClass :: k in res.classHits ==> res.classHits[k] == Hits(res.wins, k)
    ensures forall k: PrizeClass :: (k in res.classTotals <==> Hits(res.wins, k) > 0)
    ensures forall k: PrizeClass :: k in res.classTotals ==> res.classTotals[k] == Totals(res.wins, k)
    ensures res.grandTotal == Amounts(res.wins)
    ensures res.bestClass == BestClass(res.wins)
    ensures |draws| == 0 ==> res == EvaluationResult(map[], map[], 0.0, None, [])
  {
    var mainSet := set x | x in userMain;
    var euroSet := set x | x in userEuro;
    var classHits: map<PrizeClass, nat> := map[];
    var classTotals: map<PrizeClass, real> := map[];
    var wins: seq<Win> := [];
    var grandTotal := 0.0;
    var bestClass: Option<PrizeClass> := None;

    for i := 0 to |draws|
      invariant wins == WinsOf(draws[..i], mainSet, euroSet)
      invariant Tallied(wins, classHits, classTotals, grandTotal, bestClass)
    {
      WinsOfSnoc(draws, i, mainSet, euroSet);
      classHits, classTotals, grandTotal, bestClass, wins :=
        TallyDraw(draws[i], mainSet, euroSet, classHits, classTotals, grandTotal, bestClass, wins);
    }
    assert draws[..|draws|] == draws;
    res := EvaluationResult(classHits, classTotals, grandTotal, bestClass, wins);
  }

  /** The records agree with the list of wins. */
  ghost predicate Tallied(wins: seq<Win>, classHits: map<PrizeClass, nat>, classTotals: map<PrizeClass, real>,
                          grandTotal: real, bestClass: Option<PrizeClass>)
  {
    RecordsAgree(classHits, classTotals, wins) && grandTotal == Amounts(wins) && bestClass == BestClass(wins)
  }

  /** The body of the `evaluateNumbers` loop for one draw: count its matches,
      map them to a class and, when there is one, record the win. */
  method TallyDraw(d: Draw, mainSet: set<int>, euroSet: set<int>,
                   classHits: map<PrizeClass, nat>, classTotals: map<PrizeClass, real>,
                   grandTotal: real, bestClass: Option<PrizeClass>, wins: seq<Win>)
    returns (classHits': map<PrizeClass, nat>, classTotals': map<PrizeClass, real>,
             grandTotal': real, bestClass': Option<PrizeClass>, wins': seq<Win>)
    requires Tallied(wins, classHits, classTotals, grandTotal, bestClass)
    ensures wins' == wins + DrawWin(d, mainSet, euroSet)
    ensures Tallied(wins', classHits', classTotals', grandTotal', bestClass')
  {
    classHits', classTotals', grandTotal', bestClass', wins' := classHits, classTotals, grandTotal, bestClass, wins;
    var mainMatches := CountMatches(d.z, mainSet);
    var euroMatches := CountMatches(d.e, euroSet);
    var klass := MapMatchToClass(mainMatches, euroMatches);
    if klass.Some? {
      var k := klass.value;
      var payout := Payout(d, k);
      var w := Win(d.drawDate, k, payout);
      WinStep(wins, w);
      RecordsStep(classHits, classTotals, wins, w);
      classHits' := classHits[k := (if k in classHits then classHits[k] else 0) + 1];
      classTotals' := classTotals[k := (if k in classTotals then classTotals[k] else 0.0) + payout];
      grandTotal' := grandTotal + payout;
      wins' := wins + [w];
      if bestClass.None? || k < bestClass.value {
        bestClass' := Some(k);
      }
    } else {
      assert wins + [] == wins;
    }
  }

  /** How the per-class records change when one more win is appended. */
  lemma {:induction false} WinStep(wins: seq<Win>, w: Win)
    ensures forall k: PrizeClass :: Hits(wins + [w], k) == Hits(wins, k) + (if w.cls == k then 1 else 0)
    ensures forall k: PrizeClass :: Totals(wins + [w], k) == Totals(wins, k) + (if w.cls == k then w.amount else 0.0)
    ensures Amounts(wins + [w]) == Amounts(wins) + w.amount
    ensures BestClass(wins + [w]) == match BestClass(wins)
      case None => Some(w.cls)
      case Some(c) => if w.cls < c then Some(w.cls) else Some(c)
  {
    assert (wins + [w])[..|wins|] == wins;
  }

  /** Scanning one more draw adds its win, if it has one. */
  lemma {:induction false} WinsOfSnoc(draws: seq<Draw>, i: nat, mainSet: set<int>, euroSet: set<int>)
    requires i < |draws|
    ensures WinsOf(draws[..i + 1], mainSet, euroSet) == WinsOf(draws[..i], mainSet, euroSet) + DrawWin(draws[i], mainSet, euroSet)
  {
    assert draws[..i + 1][..i] == draws[..i];
  }

  /** The wins of a history are the wins of its parts, in order: `wins` follows the draw order. */
  lemma {:induction false} WinsOfAppend(a: seq<Draw>, b: seq<Draw>, mainSet: set<int>, euroSet: set<int>)
    ensures WinsOf(a + b, mainSet, euroSet) == WinsOf(a, mainSet, euroSet) + WinsOf(b, mainSet, euroSet)
    decreases |b|
  {
    if |b| == 0 {
      assert a + b == a;
    } else {
      var init, d := b[..|b| - 1], b[|b| - 1];
      assert (a + b)[..|a + b| - 1] == a + init;
      assert (a + b)[|a + b| - 1] == d;
      WinsOfAppend(a, init, mainSet, euroSet);
      var wa, wi, wd := WinsOf(a, mainSet, euroSet), WinsOf(init, mainSet, euroSet), DrawWin(d, mainSet, euroSet);
      assert WinsOf(a + b, mainSet, euroSet) == (wa + wi) + wd;
      assert WinsOf(b, mainSet, euroSet) == wi + wd;
      assert (wa + wi) + wd == wa + (wi + wd);
    }
  }

  /** A single draw wins exactly when its match counts are in the table, and the
      amount is that draw's recorded payout for the class, or 0 when none is recorded. */
  lemma {:induction false} WinsOfOne(d: Draw, mainSet: set<int>, euroSet: set<int>)
    ensures |WinsOf([d], mainSet, euroSet)| <= 1
    ensures WinsOf([d], mainSet, euroSet) != [] <==> (MatchCount(d.z, mainSet), MatchCount(d.e, euroSet)) in PrizeTable
    ensures forall w :: w in WinsOf([d], mainSet, euroSet) ==>
      w.date == d.drawDate && w.amount == (if w.cls in d.gkl then d.gkl[w.cls] else 0.0) &&
      PrizeTable[w.cls - 1] == (MatchCount(d.z, mainSet), MatchCount(d.e, euroSet))
  {
    assert [d][..0] == [];
  }

  lemma {:induction false} WinsOfLength(draws: seq<Draw>, mainSet: set<int>, euroSet: set<int>)
    ensures |WinsOf(draws, mainSet, euroSet)| <= |draws|
    decreases |draws|
  {
    if |draws| > 0 {
      WinsOfLength(draws[..|draws| - 1], mainSet, euroSet);
    }
  }

  /** Hits summed over classes 1..n. */
  function HitsUpTo(wins: seq<Win>, n: nat): nat
    requires n <= 12
  {
    if n == 0 then 0 else HitsUpTo(wins, n - 1) + Hits(wins, n)
  }

  /** Totals summed over classes 1..n. */
  function TotalsUpTo(wins: seq<Win>, n: nat): real
    requires n <= 12
  {
    if n == 0 then 0.0 else TotalsUpTo(wins, n - 1) + Totals(wins, n)
  }

  lemma {:induction false} UpToSnoc(wins: seq<Win>, w: Win, n: nat)
    requires n <= 12
    ensures HitsUpTo(wins + [w], n) == HitsUpTo(wins, n) + (if w.cls <= n then 1 else 0)
    ensures TotalsUpTo(wins + [w], n) == TotalsUpTo(wins, n) + (if w.cls <= n then w.amount else 0.0)
  {
    assert (wins + [w])[..|wins|] == wins;
    if n > 0 {
      UpToSnoc(wins, w, n - 1);
    }
  }

  lemma {:induction false} UpToEmpty(n: nat)
    requires n <= 12
    ensures HitsUpTo([], n) == 0 && TotalsUpTo([], n) == 0.0
  {
    if n > 0 {
      UpToEmpty(n - 1);
    }
  }

  /** The per-class records partition the wins: the hits over all twelve classes
      add up to the number of wins, and the class totals to the grand total. */
  lemma {:induction false} ClassRecordsPartitionWins(wins: seq<Win>)
    ensures HitsUpTo(wins, 12) == |wins|
    ensures TotalsUpTo(wins, 12) == Amounts(wins)
    decreases |wins|
  {
    if |wins| == 0 {
      UpToEmpty(12);
    } else {
      var init := wins[..|wins| - 1];
      assert wins == init + [wins[|wins| - 1]];
      ClassRecordsPartitionWins(init);
      UpToSnoc(init, wins[|wins| - 1], 12);
    }
  }

  /** The example of the specification: a draw 1,2,3,4,5 / 1,2 played with the
      identical numbers is one class-1 win worth that draw's class-1 payout. */
  lemma {:induction false} IdenticalPickWinsJackpot(date: string, gkl: map<PrizeClass, real>)
    ensures var d := Draw(date, [1, 2, 3, 4, 5], [1, 2], gkl);
            var wins := WinsOf([d], {1, 2, 3, 4, 5}, {1, 2});
            wins == [Win(date, 1, Payout(d, 1))] &&
            Hits(wins, 1) == 1 && HitsUpTo(wins, 12) == 1 && Amounts(wins) == Payout(d, 1)
  {
    var d := Draw(date, [1, 2, 3, 4, 5], [1, 2], gkl);
    var ms: set<int> := {1, 2, 3, 4, 5};
    assert MatchCount([1], ms) == 1;
    assert [1, 2][..1] == [1];
    assert MatchCount([1, 2], ms) == 2;
    assert [1, 2, 3][..2] == [1, 2];
    assert MatchCount([1, 2, 3], ms) == 3;
    assert [1, 2, 3, 4][..3] == [1, 2, 3];
    assert MatchCount([1, 2, 3, 4], ms) == 4;
    assert [1, 2, 3, 4, 5][..4] == [1, 2, 3, 4];
    assert MatchCount(d.z, ms) == 5;
    assert MatchCount(d.e, {1, 2}) == 2;
    assert [d][..0] == [];
    assert ClassOf(d, ms, {1, 2}) == Some(1);
    var wins := WinsOf([d], ms, {1, 2});
    assert wins == WinsOf([], ms, {1, 2}) + [Win(date, 1, Payout(d, 1))];
    assert wins == [Win(date, 1, Payout(d, 1))];
    ClassRecordsPartitionWins(wins);
    assert wins[..0] == [];
  }
}
