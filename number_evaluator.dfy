/**
 * The input side of the `NumberEvaluator` component: five main-number and two
 * euro-number fields, how a typed value is read (`parseInt`) and clamped into
 * the field state (`clampArray`), and the de-duplication of the fields
 * (`Array.from(new Set(...)).slice(...)`) before they reach `evaluateNumbers`,
 * which runs on the imported draws or, when there are none, on two sample
 * draws.
 */
module NumberEvaluator {
  import opened Seqs
  import opened JsText
  import opened Core

  /** What a number field holds: `Some(n)`, or `None` for NaN. */
  type Num = Option<int>

  // ---------------------------------------------------------------------------
  // parseInt(text, 10)

  function DigitValue(c: char): int
    requires IsDigit(c)
  {
    c as int - '0' as int
  }

  /** The length of the run of decimal digits at the start of s. */
  function LeadingDigits(s: string): (k: nat)
    ensures k <= |s|
    ensures forall i :: 0 <= i < k ==> IsDigit(s[i])
    ensures k < |s| ==> !IsDigit(s[k])
  {
    if |s| > 0 && IsDigit(s[0]) then 1 + LeadingDigits(s[1..]) else 0
  }

  /** The value of a string of decimal digits, most significant first. */
  function DigitsValue(ds: string): nat
    requires forall i :: 0 <= i < |ds| ==> IsDigit(ds[i])
  {
    if |ds| == 0 then 0 else 10 * DigitsValue(ds[..|ds| - 1]) + DigitValue(ds[|ds| - 1])
  }

  /** The digits at the start of u, read in base 10; NaN when there are none. */
  function Unsigned(u: string): Num
  {
    var k := LeadingDigits(u);
    if k == 0 then None else Some(DigitsValue(u[..k]))
  }

  function Negate(n: Num): Num
  {
    match n
    case None => None
    case Some(x) => Some(-x)
  }

  /** `parseInt(s, 10)`: leading whitespace is skipped, one sign is read, then
      the longest run of decimal digits; with no digit the result is NaN. */
  function ParseInt(s: string): Num
  {
    var t := TrimStart(s);
    if |t| > 0 && t[0] == '-' then Negate(Unsigned(t[1..]))
    else if |t| > 0 && t[0] == '+' then Unsigned(t[1..])
    else Unsigned(t)
  }

  /** The decimal digits of n, without leading zeros: `String(n)`. */
  function Digits(n: nat): (ds: string)
    ensures |ds| >= 1
    ensures forall i :: 0 <= i < |ds| ==> IsDigit(ds[i])
  {
    if n < 10 then [('0' as int + n) as char]
    else Digits(n / 10) + [('0' as int + n % 10) as char]
  }

  /** `String(n)` for an integer. */
  function Show(n: int): string
  {
    if n < 0 then "-" + Digits(-n) else Digits(n)
  }

  lemma {:induction false} DigitsRoundTrip(n: nat)
    ensures DigitsValue(Digits(n)) == n
  {
    if n >= 10 {
      DigitsRoundTrip(n / 10);
      var ds := Digits(n);
      assert ds[..|ds| - 1] == Digits(n / 10);
    }
  }

  lemma {:induction false} LeadingDigitsOf(ds: string, rest: string)
    requires forall i :: 0 <= i < |ds| ==> IsDigit(ds[i])
    requires |rest| == 0 || !IsDigit(rest[0])
    ensures LeadingDigits(ds + rest) == |ds|
  {
    if |ds| > 0 {
      assert (ds + rest)[1..] == ds[1..] + rest;
      LeadingDigitsOf(ds[1..], rest);
    } else {
      assert ds + rest == rest;
    }
  }

  /** Reading back a printed integer followed by text that does not start with
      a digit gives the integer: `parseInt("7") == 7`, `parseInt("12.5") == 12`,
      `parseInt("-3") == -3`. */
  lemma {:induction false} ParseIntShow(n: int, rest: string)
    requires |rest| == 0 || !IsDigit(rest[0])
    ensures ParseInt(Show(n) + rest) == Some(n)
  {
    var m: nat := if n < 0 then -n else n;
    var u := Digits(m) + rest;
    DigitsRoundTrip(m);
    UnsignedDigits(Digits(m), rest);
    if n < 0 {
      NegativeText(n, rest);
      ParseIntNegative(u, m);
    } else {
      ParseIntUnsigned(u, m);
    }
  }

  lemma {:induction false} NegativeText(n: int, rest: string)
    requires n < 0
    ensures Show(n) + rest == "-" + (Digits(-n) + rest)
  {
  }

  /** Text starting with a digit is read as an unsigned number. */
  lemma {:induction false} ParseIntUnsigned(u: string, x: int)
    requires |u| > 0 && IsDigit(u[0])
    requires Unsigned(u) == Some(x)
    ensures ParseInt(u) == Some(x)
  {
    assert TrimStart(u) == u by {
      TrimStartFrame("", u);
      assert "" + u == u;
    }
  }

  /** A minus sign directly before a digit negates the number read. */
  lemma {:induction false} ParseIntNegative(u: string, x: int)
    requires |u| > 0 && IsDigit(u[0])
    requires Unsigned(u) == Some(x)
    ensures ParseInt("-" + u) == Some(-x)
  {
    var s := "-" + u;
    assert TrimStart(s) == s by {
      TrimStartFrame("", s);
      assert "" + s == s;
    }
    assert s[0] == '-' && s[1..] == u;
  }

  /** A run of digits followed by a non-digit reads as the run. */
  lemma {:induction false} UnsignedDigits(ds: string, rest: string)
    requires |ds| >= 1 && forall i :: 0 <= i < |ds| ==> IsDigit(ds[i])
    requires |rest| == 0 || !IsDigit(rest[0])
    ensures Unsigned(ds + rest) == Some(DigitsValue(ds))
  {
    LeadingDigitsOf(ds, rest);
    assert (ds + rest)[..|ds|] == ds;
  }

  /** Text without a digit after the whitespace and the sign reads as NaN. */
  lemma {:induction false} ParseIntNaN(s: string)
    requires forall i :: 0 <= i < |s| ==> !IsDigit(s[i])
    ensures ParseInt(s) == None
  {
    var t := TrimStart(s);
    if |t| > 0 {
      assert t[0] == s[|s| - |t|];
    }
    if |t| > 1 {
      assert t[1] == s[|s| - |t| + 1];
    }
  }

  // ---------------------------------------------------------------------------
  // The fields

  /** `parseInt(e.target.value || "0", 10)`: an empty field reads as 0. */
  function FieldValue(text: string): (r: Num)
    ensures text == "" ==> r == Some(0)
  {
    if text == "" then ParseIntShow(0, ""); ParseInt("0") else ParseInt(text)
  }

  /** `Math.min(Math.max(n, min), max)`; NaN stays NaN. */
  function Clamp(n: Num, lo: int, hi: int): Num
  {
    match n
    case None => None
    case Some(x) => Some(Min(Max(x, lo), hi))
  }

  /** Every value of a field sequence is NaN or lies in [lo, hi]. */
  ghost predicate InBounds(fields: seq<Num>, lo: int, hi: int)
  {
    forall i :: 0 <= i < |fields| && fields[i].Some? ==> lo <= fields[i].value <= hi
  }

  /** `clampArray(initial, min, max, size)`: the first `size` values, each
      pulled into [min, max]. */
  function ClampArray(initial: seq<Num>, lo: int, hi: int, size: nat): (r: seq<Num>)
    ensures |r| == Min(size, |initial|)
    ensures forall i :: 0 <= i < |r| ==> (r[i].None? <==> initial[i].None?)
    ensures lo <= hi ==> InBounds(r, lo, hi)
    ensures forall i :: 0 <= i < |r| && initial[i].Some? && lo <= initial[i].value <= hi ==> r[i] == initial[i]
    ensures forall i :: 0 <= i < |r| && initial[i].Some? && initial[i].value < lo ==> r[i] == Some(Min(lo, hi))
    ensures forall i :: 0 <= i < |r| && initial[i].Some? && initial[i].value > hi ==> r[i] == Some(hi)
  {
    if size == 0 || |initial| == 0 then []
    else [Clamp(initial[0], lo, hi)] + ClampArray(initial[1..], lo, hi, size - 1)
  }

  /** Clamping values that are already clamped changes nothing. */
  lemma {:induction false} ClampArrayIdempotent(initial: seq<Num>, lo: int, hi: int, size: nat)
    requires lo <= hi
    ensures ClampArray(ClampArray(initial, lo, hi, size), lo, hi, size) == ClampArray(initial, lo, hi, size)
  {
    var r := ClampArray(initial, lo, hi, size);
    var r2 := ClampArray(r, lo, hi, size);
    forall i | 0 <= i < |r|
      ensures r2[i] == r[i]
    {
      if r[i].Some? {
        assert lo <= r[i].value <= hi;
      }
    }
  }

  /** `onChange` of main field i: the typed text goes into slot i and the five
      fields are clamped to 1..50. */
  function EditMain(main: seq<Num>, i: nat, text: string): seq<Num>
    requires i < |main|
  {
    ClampArray(main[i := FieldValue(text)], 1, MAIN_MAX, 5)
  }

  /** `onChange` of euro field i: clamped to 1..12, two fields. */
  function EditEuro(euro: seq<Num>, i: nat, text: string): seq<Num>
    requires i < |euro|
  {
    ClampArray(euro[i := FieldValue(text)], 1, EURO_MAX, 2)
  }

  /** An edit keeps five main fields in range; it changes slot i only, to the
      clamped value of the text, and an emptied field becomes 1. */
  lemma {:induction false} EditMainKeeps(main: seq<Num>, i: nat, text: string)
    requires |main| == 5 && i < 5 && InBounds(main, 1, MAIN_MAX)
    ensures var r := EditMain(main, i, text);
      && |r| == 5 && InBounds(r, 1, MAIN_MAX)
      && (forall j :: 0 <= j < 5 && j != i ==> r[j] == main[j])
      && r[i] == Clamp(FieldValue(text), 1, MAIN_MAX)
      && (text == "" ==> r[i] == Some(1))
  {
    var next := main[i := FieldValue(text)];
    var r := EditMain(main, i, text);
    forall j | 0 <= j < 5 && j != i
      ensures r[j] == main[j]
    {
      assert next[j] == main[j];
    }
    assert r[i] == Clamp(next[i], 1, MAIN_MAX) by {
      var v := next[i];
      if v.Some? && v.value < 1 {
        assert r[i] == Some(1);
      }
    }
  }

  /** The same for the two euro fields, clamped to 1..12. */
  lemma {:induction false} EditEuroKeeps(euro: seq<Num>, i: nat, text: string)
    requires |euro| == 2 && i < 2 && InBounds(euro, 1, EURO_MAX)
    ensures var r := EditEuro(euro, i, text);
      && |r| == 2 && InBounds(r, 1, EURO_MAX)
      && (forall j :: 0 <= j < 2 && j != i ==> r[j] == euro[j])
      && r[i] == Clamp(FieldValue(text), 1, EURO_MAX)
      && (text == "" ==> r[i] == Some(1))
  {
    var next := euro[i := FieldValue(text)];
    var r := EditEuro(euro, i, text);
    forall j | 0 <= j < 2 && j != i
      ensures r[j] == euro[j]
    {
      assert next[j] == euro[j];
    }
    assert r[i] == Clamp(next[i], 1, EURO_MAX) by {
      var v := next[i];
      if v.Some? && v.value < 1 {
        assert r[i] == Some(1);
      }
    }
  }

  /** Typing a number into a main field stores that number pulled into 1..50. */
  lemma {:induction false} TypedMain(main: seq<Num>, i: nat, n: int)
    requires |main| == 5 && i < 5 && InBounds(main, 1, MAIN_MAX)
    ensures EditMain(main, i, Show(n))[i] == Some(Min(Max(n, 1), MAIN_MAX))
  {
    ParseIntShow(n, "");
    assert Show(n) + "" == Show(n);
    assert Show(n) != "";
    EditMainKeeps(main, i, Show(n));
  }

  // ---------------------------------------------------------------------------
  // De-duplication and evaluation

  /** `Array.from(new Set(fields)).slice(0, k)`. */
  function UniquePicks(fields: seq<Num>, k: nat): (r: seq<Num>)
    ensures |r| <= k && |r| <= |fields|
    ensures Distinct(r)
    ensures forall x :: x in r ==> x in fields
    ensures |fields| <= k ==> forall x :: x in fields ==> x in r
  {
    var d := Dedup(fields);
    d[..Min(k, |d|)]
  }

  /** The numbers among the picks; NaN never equals a drawn number, so
      dropping it does not change any match. */
  function Present(xs: seq<Num>): (r: seq<int>)
    ensures forall x :: x in r <==> Some(x) in xs
  {
    if |xs| == 0 then []
    else
      var p := Present(xs[..|xs| - 1]);
      assert xs == xs[..|xs| - 1] + [xs[|xs| - 1]];
      match xs[|xs| - 1]
      case None => p
      case Some(x) => p + [x]
  }

  /** Five main fields whose first number is repeated in the second field
      reach the evaluation as the four distinct picks, in field order. */
  lemma {:induction false} RepeatedPickDropped(a: Num, b: Num, c: Num, d: Num)
    requires a != b && a != c && a != d && b != c && b != d && c != d
    ensures UniquePicks([a, a, b, c, d], 5) == [a, b, c, d]
  {
    DedupRepeatedHead(a, [a, b, c, d]);
    assert [a] + [a, b, c, d] == [a, a, b, c, d];
    DedupDistinct([a, b, c, d]);
  }

  /** Typing 7 into the first two main fields leaves four picks. */
  lemma {:induction false} RepeatedPickShrinks()
    ensures UniquePicks([Some(7), Some(7), Some(1), Some(2), Some(3)], 5) == [Some(7), Some(1), Some(2), Some(3)]
  {
    RepeatedPickDropped(Some(7), Some(1), Some(2), Some(3));
  }

  /** `SAMPLE_DRAWS`, evaluated when nothing has been imported. */
  const SAMPLE_DRAWS: seq<Draw> := [
    Draw("2025-09-12", [7, 22, 24, 33, 45], [4, 12],
      map[1 := 116000000.0, 2 := 560209.9, 3 := 90266.3, 4 := 5390.9, 5 := 235.5, 6 := 190.4,
          7 := 78.6, 8 := 31.1, 9 := 18.9, 10 := 15.2, 11 := 15.2, 12 := 10.0]),
    Draw("2025-09-05", [6, 14, 25, 29, 46], [7, 11],
      map[1 := 86000000.0, 2 := 2554784.5, 3 := 144077.9, 4 := 4753.0, 5 := 314.3, 6 := 189.7,
          7 := 109.3, 8 := 31.0, 9 := 21.1, 10 := 16.6, 11 := 15.6, 12 := 10.5])
  ]

  /** The sample draws are draws the importer could have produced. */
  lemma {:induction false} SampleDrawsWellFormed()
    ensures forall d :: d in SAMPLE_DRAWS ==> WellFormed(d)
  {
    var a, b := SAMPLE_DRAWS[0], SAMPLE_DRAWS[1];
    assert AllIn(a.z, 1, MAIN_MAX) && AllIn(a.e, 1, EURO_MAX);
    assert AllIn(b.z, 1, MAIN_MAX) && AllIn(b.e, 1, EURO_MAX);
  }

  /** The `useMemo` that computes the result: the imported draws, or the
      sample when there are none, evaluated against the de-duplicated fields.
      The de-duplication does not change which numbers are matched. */
  method Evaluate(draws: seq<Draw>, main: seq<Num>, euro: seq<Num>) returns (res: EvaluationResult)
    requires |main| == 5 && |euro| == 2
    ensures res.wins == WinsOf(if |draws| > 0 then draws else SAMPLE_DRAWS,
                               set x | x in Present(main), set x | x in Present(euro))
    ensures RecordsAgree(res.classHits, res.classTotals, res.wins)
    ensures res.grandTotal == Amounts(res.wins) && res.bestClass == BestClass(res.wins)
  {
    var sourceDraws := if |draws| > 0 then draws else SAMPLE_DRAWS;
    var mainSet := UniquePicks(main, 5);
    var euroSet := UniquePicks(euro, 2);
    PicksSameNumbers(main, 5);
    PicksSameNumbers(euro, 2);
    res := EvaluateNumbers(sourceDraws, Present(mainSet), Present(euroSet));
  }

  /** When the slice keeps everything, the picks hold exactly the numbers of
      the fields. */
  lemma {:induction false} PicksSameNumbers(fields: seq<Num>, k: nat)
    requires |fields| <= k
    ensures (set x | x in Present(UniquePicks(fields, k))) == (set x | x in Present(fields))
  {
  }
}
