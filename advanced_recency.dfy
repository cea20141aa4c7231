/**
 * Time-ordered metrics of the advanced analytics view
 * (apps/web/components/AdvancedAnalytics.tsx): how many draws ago each number
 * was last drawn, the gaps between its successive appearances, and the
 * lengths of its hot (drawn) and cold (not drawn) streaks.
 */
module AdvancedRecency {
  import opened Seqs
  import opened Core

  // ---------------------------------------------------------------------------
  // Last seen

  /** Index of the latest draw containing n. */
  function LastIndex(draws: seq<Draw>, n: int): (r: Option<nat>)
    ensures r.Some? ==> r.value < |draws| && n in draws[r.value].z
    ensures r.Some? ==> forall j :: r.value < j < |draws| ==> n !in draws[j].z
    ensures r.None? ==> forall j :: 0 <= j < |draws| ==> n !in draws[j].z
  {
    if |draws| == 0 then None
    else if n in draws[|draws| - 1].z then Some(|draws| - 1)
    else LastIndex(draws[..|draws| - 1], n)
  }

  /** Draws since n was last drawn: 0 if it was in the latest draw, the number
      of draws if it was never drawn. */
  function DrawsSince(draws: seq<Draw>, n: int): (r: nat)
    ensures r <= |draws|
    ensures r == |draws| <==> forall j :: 0 <= j < |draws| ==> n !in draws[j].z
    ensures |draws| > 0 && n in draws[|draws| - 1].z ==> r == 0
  {
    match LastIndex(draws, n)
    case None => |draws|
    case Some(j) => |draws| - 1 - j
  }

  datatype Overdue = Overdue(num: int, drawsSince: nat)

  function NegSince(o: Overdue): real
  {
    -(o.drawsSince as real)
  }

  /** The unsorted list `lastIndex.map(...).slice(1)`, as a specification. */
  function OverdueList(draws: seq<Draw>, domainMax: nat): (r: seq<Overdue>)
    ensures |r| == domainMax
    ensures forall i :: 0 <= i < domainMax ==> r[i] == Overdue(i + 1, DrawsSince(draws, i + 1))
  {
    seq(domainMax, i requires 0 <= i < domainMax => Overdue(i + 1, DrawsSince(draws, i + 1)))
  }

  /** What `lastIndex[n]` holds once the scan from the end has handled every
      draw after index i and, within draw i, the mains before position p. */
  function Recorded(draws: seq<Draw>, n: int, i: int, z: seq<int>, p: nat): Option<nat>
    requires p <= |z|
  {
    match LastIndex(draws, n)
    case Some(j) => if j > i || (j == i && n in z[..p]) then Some(|draws| - 1 - j) else None
    case None => None
  }

  /** What the whole scan leaves in `lastIndex[n]`. */
  function Gap(draws: seq<Draw>, n: int): (r: Option<nat>)
    ensures r == Recorded(draws, n, -1, [], 0)
    ensures (if r.None? then |draws| else r.value) == DrawsSince(draws, n)
  {
    match LastIndex(draws, n)
    case Some(j) => Some(|draws| - 1 - j)
    case None => None
  }

  /** One iteration of the outer scan: the mains of draw i, front to back. */
  method ScanDraw(last: array<Option<nat>>, draws: seq<Draw>, i: nat)
    requires i < |draws| && AllIn(draws[i].z, 0, last.Length - 1)
    requires forall n :: 0 <= n < last.Length ==> last[n] == Recorded(draws, n, i, [], 0)
    modifies last
    ensures forall n :: 0 <= n < last.Length ==> last[n] == Recorded(draws, n, i - 1, [], 0)
  {
    var z := draws[i].z;
    var total := |draws|;
    var p := 0;
    while p < |z|
      invariant 0 <= p <= |z|
      invariant forall n :: 0 <= n < last.Length ==> last[n] == Recorded(draws, n, i, z, p)
    {
      var n := z[p];
      assert z[..p + 1] == z[..p] + [n];
      if last[n] == None {
        last[n] := Some(total - 1 - i);
      }
      p := p + 1;
    }
    assert z[..|z|] == z;
  }

  /** The backward scan `for (i = total - 1; i >= 0; i--)` filling `lastIndex`. */
  method LastSeenTable(draws: seq<Draw>, domainMax: nat) returns (gaps: seq<Option<nat>>)
    requires forall i :: 0 <= i < |draws| ==> AllIn(draws[i].z, 0, domainMax)
    ensures |gaps| == domainMax + 1
    ensures forall n :: 0 <= n <= domainMax ==> gaps[n] == Gap(draws, n)
  {
    var last := new Option<nat>[domainMax + 1](_ => None);
    var i := |draws| - 1;
    while i >= 0
      invariant -1 <= i < |draws|
      invariant forall n :: 0 <= n < last.Length ==> last[n] == Recorded(draws, n, i, [], 0)
    {
      ScanDraw(last, draws, i);
      i := i - 1;
    }
    gaps := last[..];
  }

  function NumOf(o: Overdue): int
  {
    o.num
  }

  /** `computeLastSeen(draws, domainMax)`: for each number 1..domainMax the
      number of draws since it was last drawn, ranked from most to least
      overdue (ties keep number order). The source indexes its table by the
      mains, so every main must lie in `0..domainMax`. */
  method ComputeLastSeen(draws: seq<Draw>, domainMax: nat) returns (out: seq<Overdue>)
    requires forall i :: 0 <= i < |draws| ==> AllIn(draws[i].z, 0, domainMax)
    ensures |out| == domainMax
    ensures multiset(out) == multiset(OverdueList(draws, domainMax))
    ensures forall i, j :: 0 <= i < j < |out| ==> out[i].drawsSince >= out[j].drawsSince
    ensures forall i, j :: 0 <= i < j < |out| && out[i].drawsSince == out[j].drawsSince ==> out[i].num < out[j].num
    ensures forall o :: o in out ==> 1 <= o.num <= domainMax && o.drawsSince == DrawsSince(draws, o.num)
  {
    var gaps := LastSeenTable(draws, domainMax);
    var total := |draws|;
    var nowAge := seq(domainMax, k requires 0 <= k < domainMax =>
      Overdue(k + 1, if gaps[k + 1] == None then total else gaps[k + 1].value));
    assert nowAge == OverdueList(draws, domainMax);
    out := SortBy(nowAge, NegSince);
    SortByStable(nowAge, NegSince, NumOf);
    forall a, b | 0 <= a < b < |out|
      ensures out[a].drawsSince >= out[b].drawsSince
      ensures out[a].drawsSince == out[b].drawsSince ==> out[a].num < out[b].num
    {
      assert NegSince(out[a]) <= NegSince(out[b]);
    }
    SameElements(out, nowAge);
  }

  // ---------------------------------------------------------------------------
  // Inter-arrival gaps

  /** The index i repeated c times. */
  function Repeat(i: nat, c: nat): (r: seq<nat>)
    ensures |r| == c && forall k :: 0 <= k < c ==> r[k] == i
  {
    seq(c, _ => i)
  }

  /** `indicesPerNumber[n]`: the index of every draw containing n, once per
      occurrence of n in it, in draw order. */
  function Occurrences(draws: seq<Draw>, n: int): seq<nat>
  {
    if |draws| == 0 then []
    else Occurrences(draws[..|draws| - 1], n) + Repeat(|draws| - 1, multiset(draws[|draws| - 1].z)[n])
  }

  lemma {:induction false} OccurrencesSorted(draws: seq<Draw>, n: int)
    ensures forall k :: 0 <= k < |Occurrences(draws, n)| ==> Occurrences(draws, n)[k] < |draws|
    ensures forall k, l :: 0 <= k < l < |Occurrences(draws, n)| ==> Occurrences(draws, n)[k] <= Occurrences(draws, n)[l]
  {
    if |draws| > 0 {
      OccurrencesSorted(draws[..|draws| - 1], n);
    }
  }

  /** Draw i occurs among n's indices exactly when it contains n. */
  lemma {:induction false} OccurrencesMembers(draws: seq<Draw>, n: int, i: nat)
    ensures i in Occurrences(draws, n) <==> i < |draws| && n in draws[i].z
  {
    if |draws| > 0 {
      var d := |draws| - 1;
      OccurrencesMembers(draws[..d], n, i);
      OccurrencesSorted(draws[..d], n);
      var c := multiset(draws[d].z)[n];
      assert n in draws[d].z <==> c > 0;
      assert Occurrences(draws, n) == Occurrences(draws[..d], n) + Repeat(d, c);
      assert c > 0 ==> Repeat(d, c)[0] == d;
      assert i in Repeat(d, c) <==> i == d && c > 0;
      assert i < d ==> draws[..d][i] == draws[i];
    }
  }

  /** `for (k = 1; k < idx.length; k++) gaps.push(idx[k] - idx[k - 1])`. The
      gaps telescope: they add up to the distance from the first to the last index. */
  method Gaps(idx: seq<int>) returns (gaps: seq<int>)
    ensures |gaps| == Max(0, |idx| - 1)
    ensures forall k :: 0 <= k < |gaps| ==> gaps[k] == idx[k + 1] - idx[k]
    ensures |idx| > 0 ==> Sum(gaps) == idx[|idx| - 1] - idx[0]
  {
    gaps := [];
    var k := 1;
    while k < |idx|
      invariant 1 <= k <= Max(1, |idx|)
      invariant |gaps| == k - 1
      invariant forall j :: 0 <= j < |gaps| ==> gaps[j] == idx[j + 1] - idx[j]
      invariant |idx| > 0 ==> Sum(gaps) == idx[k - 1] - idx[0]
    {
      gaps := gaps + [idx[k] - idx[k - 1]];
      k := k + 1;
    }
  }

  /** Pushing index i once for every main of draw i. */
  method PushIndices(indices: map<int, seq<nat>>, draws: seq<Draw>, i: nat, domainMax: nat) returns (out: map<int, seq<nat>>)
    requires i < |draws| && AllIn(draws[i].z, 1, domainMax)
    requires forall c :: c in indices <==> 1 <= c <= domainMax
    requires forall c :: 1 <= c <= domainMax ==> indices[c] == Occurrences(draws[..i], c)
    ensures forall c :: c in out <==> 1 <= c <= domainMax
    ensures forall c :: 1 <= c <= domainMax ==> out[c] == Occurrences(draws[..i + 1], c)
  {
    out := indices;
    var z := draws[i].z;
    var p := 0;
    assert z[..0] == [];
    while p < |z|
      invariant 0 <= p <= |z|
      invariant forall c :: c in out <==> 1 <= c <= domainMax
      invariant forall c :: 1 <= c <= domainMax ==> out[c] == Occurrences(draws[..i], c) + Repeat(i, multiset(z[..p])[c])
    {
      var m := z[p];
      assert z[..p + 1] == z[..p] + [m];
      PushOne(out, draws[..i], z[..p], m, i, domainMax);
      out := out[m := out[m] + [i]];
      p := p + 1;
    }
    assert z[..|z|] == z;
    forall c | 1 <= c <= domainMax
      ensures out[c] == Occurrences(draws[..i + 1], c)
    {
      OccurrencesLast(draws, i, c);
    }
  }

  /** One push keeps every list equal to the occurrences so far followed by
      index i once per copy of its number among the mains pushed so far. */
  lemma {:induction false} PushOne(before: map<int, seq<nat>>, prefix: seq<Draw>, pushed: seq<int>, m: int, i: nat, domainMax: nat)
    requires 1 <= m <= domainMax
    requires forall c :: c in before <==> 1 <= c <= domainMax
    requires forall c :: 1 <= c <= domainMax ==> before[c] == Occurrences(prefix, c) + Repeat(i, multiset(pushed)[c])
    ensures forall c :: 1 <= c <= domainMax ==>
      before[m := before[m] + [i]][c] == Occurrences(prefix, c) + Repeat(i, multiset(pushed + [m])[c])
  {
    forall c | 1 <= c <= domainMax
      ensures before[m := before[m] + [i]][c] == Occurrences(prefix, c) + Repeat(i, multiset(pushed + [m])[c])
    {
      var k := multiset(pushed)[c];
      if c == m {
        assert Repeat(i, k + 1) == Repeat(i, k) + [i];
      }
    }
  }

  lemma {:induction false} OccurrencesLast(draws: seq<Draw>, i: nat, c: int)
    requires i < |draws|
    ensures Occurrences(draws[..i + 1], c) == Occurrences(draws[..i], c) + Repeat(i, multiset(draws[i].z)[c])
  {
    assert draws[..i + 1][..i] == draws[..i];
  }

  /** `indicesPerNumber`: one list per number 1..domainMax, then every main of
      every draw pushes its draw index. */
  method OccurrenceTable(draws: seq<Draw>, domainMax: nat) returns (indices: map<int, seq<nat>>)
    requires forall i :: 0 <= i < |draws| ==> AllIn(draws[i].z, 1, domainMax)
    ensures forall c :: c in indices <==> 1 <= c <= domainMax
    ensures forall c :: 1 <= c <= domainMax ==> indices[c] == Occurrences(draws, c)
  {
    indices := map[];
    var n := 1;
    while n <= domainMax
      invariant 1 <= n <= domainMax + 1
      invariant forall c :: c in indices <==> 1 <= c < n
      invariant forall c :: c in indices ==> indices[c] == []
    {
      indices := indices[n := []];
      n := n + 1;
    }
    var i := 0;
    while i < |draws|
      invariant 0 <= i <= |draws|
      invariant forall c :: c in indices <==> 1 <= c <= domainMax
      invariant forall c :: 1 <= c <= domainMax ==> indices[c] == Occurrences(draws[..i], c)
    {
      indices := PushIndices(indices, draws, i, domainMax);
      i := i + 1;
    }
    assert draws[..|draws|] == draws;
  }

  /** `computeInterArrival(draws, domainMax)`: for each number 1..domainMax the
      gaps between the draws that contain it. There is one gap fewer than
      occurrences, none is negative, and they add up to the distance between
      its first and last appearance. The source keeps one list per number of
      `1..domainMax`, so every main must lie in that range. */
  method ComputeInterArrival(draws: seq<Draw>, domainMax: nat) returns (perNumber: map<int, seq<int>>)
    requires forall i :: 0 <= i < |draws| ==> AllIn(draws[i].z, 1, domainMax)
    ensures forall n :: n in perNumber <==> 1 <= n <= domainMax
    ensures forall n :: 1 <= n <= domainMax ==> GapsOf(perNumber[n], Occurrences(draws, n))
  {
    perNumber := map[];
    var indices := OccurrenceTable(draws, domainMax);
    var n := 1;
    while n <= domainMax
      invariant 1 <= n <= domainMax + 1
      invariant forall c :: c in perNumber <==> 1 <= c < n
      invariant forall c :: 1 <= c < n ==> GapsOf(perNumber[c], Occurrences(draws, c))
    {
      var gaps := Gaps(indices[n]);
      OccurrenceGaps(draws, n, gaps);
      perNumber := perNumber[n := gaps];
      n := n + 1;
    }
  }

  /** The differences of a number's draw indices are never negative, because
      the indices are pushed in draw order. */
  lemma {:induction false} OccurrenceGaps(draws: seq<Draw>, n: int, gaps: seq<int>)
    requires var occ := Occurrences(draws, n);
      && |gaps| == Max(0, |occ| - 1)
      && (forall k :: 0 <= k < |gaps| ==> gaps[k] == occ[k + 1] as int - occ[k])
      && (|occ| > 0 ==> Sum(gaps) == occ[|occ| - 1] as int - occ[0])
    ensures GapsOf(gaps, Occurrences(draws, n))
  {
    var occ := Occurrences(draws, n);
    OccurrencesSorted(draws, n);
    forall k | 0 <= k < |gaps|
      ensures gaps[k] >= 0
    {
      assert occ[k] <= occ[k + 1];
    }
  }

  /** `gaps` are the non-negative differences of neighbouring indices of `occ`:
      one fewer than the indices, adding up to the span from first to last. */
  ghost predicate GapsOf(gaps: seq<int>, occ: seq<nat>)
  {
    && |gaps| == Max(0, |occ| - 1)
    && (forall k :: 0 <= k < |gaps| ==> gaps[k] == occ[k + 1] as int - occ[k] && gaps[k] >= 0)
    && (|occ| > 0 ==> Sum(gaps) == occ[|occ| - 1] as int - occ[0])
  }

  // ---------------------------------------------------------------------------
  // Hot and cold streaks

  /** A maximal block of consecutive draws in which a number was drawn (hot)
      or not drawn (cold). */
  datatype Run = Run(hot: bool, len: nat)

  /** Run-length encoding of a presence column, built from the end. */
  function Runs(bs: seq<bool>): (r: seq<Run>)
    ensures |bs| == 0 <==> |r| == 0
    ensures |bs| > 0 ==> r[|r| - 1].hot == bs[|bs| - 1]
  {
    if |bs| == 0 then []
    else
      var r := Runs(bs[..|bs| - 1]);
      var b := bs[|bs| - 1];
      if |r| > 0 && r[|r| - 1].hot == b then r[..|r| - 1] + [Run(b, r[|r| - 1].len + 1)]
      else r + [Run(b, 1)]
  }

  /** Writing every run out again. */
  function Expand(rs: seq<Run>): seq<bool>
  {
    if |rs| == 0 then [] else Expand(rs[..|rs| - 1]) + seq(rs[|rs| - 1].len, _ => rs[|rs| - 1].hot)
  }

  lemma {:induction false} ExpandSnoc(rs: seq<Run>, x: Run)
    ensures Expand(rs + [x]) == Expand(rs) + seq(x.len, _ => x.hot)
  {
    assert (rs + [x])[..|rs|] == rs;
  }

  /** Lengthening the last run by one writes out one more copy of its kind. */
  lemma {:induction false} ExpandGrow(front: seq<Run>, x: Run)
    ensures Expand(front + [Run(x.hot, x.len + 1)]) == Expand(front + [x]) + [x.hot]
  {
    ExpandSnoc(front, x);
    ExpandSnoc(front, Run(x.hot, x.len + 1));
    assert seq(x.len + 1, _ => x.hot) == seq(x.len, _ => x.hot) + [x.hot];
  }

  /** The encoding loses nothing: expanding the runs gives the column back. */
  lemma {:induction false} RunsExpand(bs: seq<bool>)
    ensures Expand(Runs(bs)) == bs
  {
    if |bs| > 0 {
      var init, b := bs[..|bs| - 1], bs[|bs| - 1];
      assert bs == init + [b];
      RunsExpand(init);
      RunsExpandSnoc(init, b);
    }
  }

  lemma {:induction false} RunsExpandSnoc(init: seq<bool>, b: bool)
    requires Expand(Runs(init)) == init
    ensures Expand(Runs(init + [b])) == init + [b]
  {
    var r := Runs(init);
    assert (init + [b])[..|init|] == init;
    if |r| > 0 && r[|r| - 1].hot == b {
      var front, lastRun := r[..|r| - 1], r[|r| - 1];
      assert r == front + [lastRun];
      assert Runs(init + [b]) == front + [Run(b, lastRun.len + 1)];
      ExpandGrow(front, lastRun);
    } else {
      assert Runs(init + [b]) == r + [Run(b, 1)];
      ExpandSnoc(r, Run(b, 1));
      assert seq(1, _ => b) == [b];
    }
  }

  /** Every run is at least one draw long. */
  lemma {:induction false} RunsPositive(bs: seq<bool>)
    ensures forall k :: 0 <= k < |Runs(bs)| ==> Runs(bs)[k].len >= 1
  {
    if |bs| > 0 {
      RunsPositive(bs[..|bs| - 1]);
    }
  }

  /** Neighbouring runs differ in kind: the runs are maximal. */
  lemma {:induction false} RunsAlternate(bs: seq<bool>)
    ensures forall k :: 0 <= k < |Runs(bs)| - 1 ==> Runs(bs)[k].hot != Runs(bs)[k + 1].hot
  {
    if |bs| > 0 {
      RunsAlternate(bs[..|bs| - 1]);
    }
  }

  /** Sum of the run lengths. */
  function TotalLen(rs: seq<Run>): nat
  {
    if |rs| == 0 then 0 else TotalLen(rs[..|rs| - 1]) + rs[|rs| - 1].len
  }

  lemma {:induction false} ExpandLength(rs: seq<Run>)
    ensures |Expand(rs)| == TotalLen(rs)
  {
    if |rs| > 0 {
      ExpandLength(rs[..|rs| - 1]);
    }
  }

  /** The runs of a column cover it: their lengths add up to the number of draws. */
  lemma {:induction false} RunsCover(bs: seq<bool>)
    ensures TotalLen(Runs(bs)) == |bs|
  {
    RunsExpand(bs);
    ExpandLength(Runs(bs));
  }

  /** A number drawn every time has a single hot run as long as the history. */
  lemma {:induction false} AlwaysDrawnOneRun(bs: seq<bool>)
    requires |bs| > 0 && forall k :: 0 <= k < |bs| ==> bs[k]
    ensures Runs(bs) == [Run(true, |bs|)]
  {
    if |bs| > 1 {
      AlwaysDrawnOneRun(bs[..|bs| - 1]);
    }
  }

  /** The lengths of the hot runs, in order. */
  function HotLens(rs: seq<Run>): seq<int>
  {
    if |rs| == 0 then [] else HotLens(rs[..|rs| - 1]) + (if rs[|rs| - 1].hot then [rs[|rs| - 1].len as int] else [])
  }

  /** The lengths of the cold runs, in order. */
  function ColdLens(rs: seq<Run>): seq<int>
  {
    if |rs| == 0 then [] else ColdLens(rs[..|rs| - 1]) + (if rs[|rs| - 1].hot then [] else [rs[|rs| - 1].len as int])
  }

  lemma {:induction false} LensSplit(rs: seq<Run>)
    ensures Sum(HotLens(rs)) + Sum(ColdLens(rs)) == TotalLen(rs)
  {
    if |rs| > 0 {
      var init := rs[..|rs| - 1];
      var x := rs[|rs| - 1];
      LensSplit(init);
      SumAppend(HotLens(init), if x.hot then [x.len as int] else []);
      SumAppend(ColdLens(init), if x.hot then [] else [x.len as int]);
    }
  }

  /** `presence[i][n]` for one number n: was it drawn in draw i? */
  function Column(draws: seq<Draw>, n: int): (col: seq<bool>)
    ensures |col| == |draws|
    ensures forall i :: 0 <= i < |draws| ==> col[i] == (n in draws[i].z)
  {
    seq(|draws|, i requires 0 <= i < |draws| => n in draws[i].z)
  }

  /** The `cur`/`mode` loop for one number: a run is pushed to its list when
      the column changes kind, and the open run when the column ends. */
  method ColumnRuns(col: seq<bool>) returns (hot: seq<int>, cold: seq<int>)
    ensures hot == HotLens(Runs(col)) && cold == ColdLens(Runs(col))
  {
    hot, cold := [], [];
    var cur := 0;
    var mode: Option<bool> := None;
    ghost var done: seq<Run> := [];
    var i := 0;
    while i < |col|
      invariant i <= |col|
      invariant ScanState(col, i, mode, cur, done, hot, cold)
    {
      var hit := col[i];
      ScanStep(col, i, mode, cur, done, hot, cold);
      if mode == None {
        mode := Some(hit);
        cur := 1;
      } else if mode.value == hit {
        cur := cur + 1;
      } else {
        if mode.value {
          hot := hot + [cur];
        } else {
          cold := cold + [cur];
        }
        done := done + [Run(mode.value, cur)];
        mode := Some(hit);
        cur := 1;
      }
      i := i + 1;
    }
    ScanEnd(col, mode, cur, done, hot, cold);
    if mode != None {
      if mode.value {
        hot := hot + [cur];
      } else {
        cold := cold + [cur];
      }
    }
  }

  /** The loop state after `col[..i]`: the closed runs are `done`, their
      lengths are in `hot` and `cold`, and the open run is `mode`/`cur`. */
  ghost predicate ScanState(col: seq<bool>, i: nat, mode: Option<bool>, cur: int, done: seq<Run>, hot: seq<int>, cold: seq<int>)
    requires i <= |col|
  {
    && (i == 0 ==> mode == None && done == [])
    && (i > 0 ==> mode == Some(col[i - 1]) && cur >= 1 && Runs(col[..i]) == done + [Run(col[i - 1], cur)])
    && hot == HotLens(done) && cold == ColdLens(done)
  }

  lemma {:induction false} ScanStep(col: seq<bool>, i: nat, mode: Option<bool>, cur: int, done: seq<Run>, hot: seq<int>, cold: seq<int>)
    requires i < |col| && ScanState(col, i, mode, cur, done, hot, cold)
    ensures var hit := col[i];
      if mode == None then ScanState(col, i + 1, Some(hit), 1, done, hot, cold)
      else if mode.value == hit then ScanState(col, i + 1, mode, cur + 1, done, hot, cold)
      else ScanState(col, i + 1, Some(hit), 1, done + [Run(mode.value, cur)],
                     if mode.value then hot + [cur] else hot, if mode.value then cold else cold + [cur])
  {
    var hit := col[i];
    assert col[..i + 1] == col[..i] + [hit];
    if mode == None {
      assert col[..i] == [];
    } else if mode.value == hit {
      RunsSame(col[..i], done, Run(hit, cur), hit);
    } else {
      RunsSwitch(col[..i], done, Run(mode.value, cur), hit);
      LensSnoc(done, Run(mode.value, cur));
    }
  }

  lemma {:induction false} ScanEnd(col: seq<bool>, mode: Option<bool>, cur: int, done: seq<Run>, hot: seq<int>, cold: seq<int>)
    requires ScanState(col, |col|, mode, cur, done, hot, cold)
    ensures mode == None ==> hot == HotLens(Runs(col)) && cold == ColdLens(Runs(col))
    ensures mode != None ==>
              && cur >= 1
              && (if mode.value then hot + [cur] else hot) == HotLens(Runs(col))
              && (if mode.value then cold else cold + [cur]) == ColdLens(Runs(col))
  {
    assert col[..|col|] == col;
    if mode != None {
      LensSnoc(done, Run(mode.value, cur));
    }
  }

  /** A draw of the same kind as the open run lengthens it. */
  lemma {:induction false} RunsSame(bs: seq<bool>, done: seq<Run>, x: Run, b: bool)
    requires Runs(bs) == done + [x] && x.hot == b
    ensures Runs(bs + [b]) == done + [Run(b, x.len + 1)]
  {
    assert (bs + [b])[..|bs|] == bs;
    assert (done + [x])[..|done|] == done;
  }

  /** A draw of the other kind closes the open run and opens a new one. */
  lemma {:induction false} RunsSwitch(bs: seq<bool>, done: seq<Run>, x: Run, b: bool)
    requires Runs(bs) == done + [x] && x.hot != b
    ensures Runs(bs + [b]) == done + [x] + [Run(b, 1)]
  {
    assert (bs + [b])[..|bs|] == bs;
  }

  /** Closing a run adds its length to the list of its kind. */
  lemma {:induction false} LensSnoc(done: seq<Run>, x: Run)
    ensures HotLens(done + [x]) == HotLens(done) + (if x.hot then [x.len as int] else [])
    ensures ColdLens(done + [x]) == ColdLens(done) + (if x.hot then [] else [x.len as int])
  {
    assert (done + [x])[..|done|] == done;
  }

  /** The hot (resp. cold) run lengths of the numbers 1..k, number by number. */
  function AllHot(draws: seq<Draw>, k: nat): seq<int>
  {
    if k == 0 then [] else AllHot(draws, k - 1) + HotLens(Runs(Column(draws, k)))
  }

  function AllCold(draws: seq<Draw>, k: nat): seq<int>
  {
    if k == 0 then [] else AllCold(draws, k - 1) + ColdLens(Runs(Column(draws, k)))
  }

  /** The loop over the numbers 1..domainMax, appending each number's runs. */
  method CollectRuns(draws: seq<Draw>, domainMax: nat) returns (hotRuns: seq<int>, coldRuns: seq<int>)
    ensures hotRuns == AllHot(draws, domainMax) && coldRuns == AllCold(draws, domainMax)
  {
    hotRuns, coldRuns := [], [];
    var n := 0;
    while n < domainMax
      invariant 0 <= n <= domainMax
      invariant hotRuns == AllHot(draws, n) && coldRuns == AllCold(draws, n)
    {
      var hot, cold := ColumnRuns(Column(draws, n + 1));
      hotRuns, coldRuns := hotRuns + hot, coldRuns + cold;
      n := n + 1;
    }
  }

  /** `computeStreaks(draws, domainMax)`: every run of every number 1..domainMax,
      hot and cold separately, each list sorted ascending. */
  method ComputeStreaks(draws: seq<Draw>, domainMax: nat) returns (hotRuns: seq<int>, coldRuns: seq<int>)
    ensures multiset(hotRuns) == multiset(AllHot(draws, domainMax))
    ensures multiset(coldRuns) == multiset(AllCold(draws, domainMax))
    ensures forall i, j :: 0 <= i < j < |hotRuns| ==> hotRuns[i] <= hotRuns[j]
    ensures forall i, j :: 0 <= i < j < |coldRuns| ==> coldRuns[i] <= coldRuns[j]
  {
    var hot, cold := CollectRuns(draws, domainMax);
    hotRuns := SortInts(hot);
    coldRuns := SortInts(cold);
  }

  /** Over all numbers, the hot and cold runs together cover every
      (number, draw) cell exactly once. */
  lemma {:induction false} StreaksCover(draws: seq<Draw>, k: nat)
    ensures Sum(AllHot(draws, k)) + Sum(AllCold(draws, k)) == k * |draws|
  {
    if k > 0 {
      var ph, pc := AllHot(draws, k - 1), AllCold(draws, k - 1);
      assert Sum(ph) + Sum(pc) == (k - 1) * |draws| by {
        StreaksCover(draws, k - 1);
      }
      var col := Column(draws, k);
      var rs := Runs(col);
      assert Sum(HotLens(rs)) + Sum(ColdLens(rs)) == |draws| by {
        LensSplit(rs);
        RunsCover(col);
      }
      assert Sum(AllHot(draws, k)) == Sum(ph) + Sum(HotLens(rs)) by {
        SumAppend(ph, HotLens(rs));
      }
      assert Sum(AllCold(draws, k)) == Sum(pc) + Sum(ColdLens(rs)) by {
        SumAppend(pc, ColdLens(rs));
      }
      MulStep(k, |draws|);
    }
  }

  lemma {:induction false} MulStep(k: nat, n: nat)
    requires k > 0
    ensures k * n == (k - 1) * n + n
  {
  }

  /** With no draws there are no runs at all. */
  lemma {:induction false} NoDrawsNoStreaks(k: nat)
    ensures AllHot([], k) == [] && AllCold([], k) == []
  {
    if k > 0 {
      NoDrawsNoStreaks(k - 1);
      assert Runs(Column([], k)) == [];
    }
  }
}
