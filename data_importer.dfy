/**
 * The spreadsheet import of apps/web/components/DataImporter.tsx: resolving
 * the column headers of the first row by normalised name, converting each
 * row into a draw (date, five mains, two euros, the prize-class payouts
 * present), rejecting the whole import on the first missing column or
 * invalid row, and sorting the draws by date.
 *
 * The conversions the importer delegates to libraries (Excel serial dates,
 * `Date.parse`, `Number(...)` and the currency clean-up of payout cells) are
 * parameters, bundled in `Lib`.
 */
module DataImporter {
  import opened Seqs
  import opened JsText
  import opened Core

  /** A cell as the spreadsheet reader returns it: missing (`undefined` or
      `null`), a string, or a number. */
  datatype Cell = Absent | Str(s: string) | Num(x: real)

  /** The library conversions, each `None` where the source gets NaN or throws. */
  datatype Lib = Lib(
    excelDate: real -> Option<string>,
    parsedDate: string -> Option<string>,
    toNumber: Cell -> Option<int>,
    toAmount: Cell -> Option<real>)

  /** A raw row: its header names in `Object.keys` order and its cells. */
  datatype Row = Row(header: seq<string>, cells: map<string, Cell>)

  /** `r[key]`. */
  function Get(r: Row, key: string): Cell
  {
    if key in r.cells then r.cells[key] else Absent
  }

  datatype ImportError =
    | UnrecognizedDate(cell: Cell)
    | MissingDateColumn
    | MissingMainColumns
    | MissingEuroColumns
    | InvalidMains(date: string)
    | InvalidEuros(date: string)

  datatype Result<T> = Ok(value: T) | Err(error: ImportError)

  // ---------------------------------------------------------------------------
  // toISODate

  /** The regular expression `^(\d{2})\.(\d{2})\.(\d{4})$`. */
  predicate IsDotted(s: string)
  {
    && |s| == 10 && s[2] == '.' && s[5] == '.'
    && IsDigit(s[0]) && IsDigit(s[1]) && IsDigit(s[3]) && IsDigit(s[4])
    && IsDigit(s[6]) && IsDigit(s[7]) && IsDigit(s[8]) && IsDigit(s[9])
  }

  /** The shape `YYYY-MM-DD` with ASCII digits. */
  predicate IsIso(s: string)
  {
    && |s| == 10 && s[4] == '-' && s[7] == '-'
    && IsDigit(s[0]) && IsDigit(s[1]) && IsDigit(s[2]) && IsDigit(s[3])
    && IsDigit(s[5]) && IsDigit(s[6]) && IsDigit(s[8]) && IsDigit(s[9])
  }

  /** `${yyyy}-${mm}-${dd}` from the three captured digit groups. */
  function DottedToIso(s: string): string
    requires |s| == 10
  {
    s[6..10] + "-" + s[3..5] + "-" + s[0..2]
  }

  /** The reverse reordering, `DD.MM.YYYY` from an ISO date. */
  function IsoToDotted(s: string): string
    requires |s| == 10
  {
    s[8..10] + "." + s[5..7] + "." + s[0..4]
  }

  /** Every `DD.MM.YYYY` string becomes an ISO-shaped date and nothing is lost:
      the day and month are moved, not checked. */
  lemma {:induction false} DottedRoundTrip(s: string)
    requires IsDotted(s)
    ensures IsIso(DottedToIso(s)) && IsoToDotted(DottedToIso(s)) == s
  {
    var r := DottedToIso(s);
    assert r[0..4] == s[6..10] && r[5..7] == s[3..5] && r[8..10] == s[0..2];
  }

  /** Every ISO-shaped date comes from exactly one `DD.MM.YYYY` string. */
  lemma {:induction false} IsoRoundTrip(s: string)
    requires IsIso(s)
    ensures IsDotted(IsoToDotted(s)) && DottedToIso(IsoToDotted(s)) == s
  {
    var r := IsoToDotted(s);
    assert r[6..10] == s[0..4] && r[3..5] == s[5..7] && r[0..2] == s[8..10];
  }

  /** `toISODate(v)`: a number goes through the Excel serial conversion; a
      string is trimmed and reordered when it is `DD.MM.YYYY`, otherwise
      handed to `Date.parse`; anything else is an unrecognised date. */
  function ToIsoDate(c: Cell, lib: Lib): (r: Result<string>)
    ensures c.Str? && IsDotted(Trim(c.s)) ==> r.Ok? && IsIso(r.value) && IsoToDotted(r.value) == Trim(c.s)
    ensures c.Absent? ==> r == Err(UnrecognizedDate(c))
    ensures r.Err? ==> r.error == UnrecognizedDate(c)
  {
    match c
    case Absent => Err(UnrecognizedDate(c))
    case Num(x) =>
      (match lib.excelDate(x)
       case Some(d) => Ok(d)
       case None => Err(UnrecognizedDate(c)))
    case Str(s) =>
      var t := Trim(s);
      if IsDotted(t) then
        DottedRoundTrip(t);
        Ok(DottedToIso(t))
      else
        (match lib.parsedDate(t)
         case Some(d) => Ok(d)
         case None => Err(UnrecognizedDate(c)))
  }

  // ---------------------------------------------------------------------------
  // Column resolution

  /** `norm(k) = k.toLowerCase().trim()`. */
  function Norm(k: string): string
  {
    Trim(LowerAscii(k))
  }

  /** `keys.find(p) ?? null`. */
  function Find(keys: seq<string>, p: string -> bool): Option<string>
  {
    if |keys| == 0 then None
    else if p(keys[0]) then Some(keys[0])
    else Find(keys[1..], p)
  }

  /** `find` returns the first key satisfying the test, and nothing exactly
      when no key does. */
  lemma {:induction false} FindFirst(keys: seq<string>, p: string -> bool)
    ensures var r := Find(keys, p);
      r.Some? ==>
        exists i :: 0 <= i < |keys| && keys[i] == r.value && p(keys[i])
                    && forall j :: 0 <= j < i ==> !p(keys[j])
    ensures Find(keys, p).None? <==> forall i :: 0 <= i < |keys| ==> !p(keys[i])
  {
    if |keys| > 0 && !p(keys[0]) {
      var tail := keys[1..];
      FindFirst(tail, p);
      assert forall i :: 1 <= i < |keys| ==> keys[i] == tail[i - 1];
      var r := Find(keys, p);
      if r.Some? {
        var i :| 0 <= i < |tail| && tail[i] == r.value && p(tail[i])
                 && forall j :: 0 <= j < i ==> !p(tail[j]);
        assert keys[i + 1] == r.value;
        forall j | 0 <= j < i + 1
          ensures !p(keys[j])
        {
          if j > 0 {
            assert keys[j] == tail[j - 1];
          }
        }
      }
    }
  }

  /** `findKey(variants)`: the first header whose normalised name is one of
      the variants. */
  function FindKey(keys: seq<string>, variants: seq<string>): Option<string>
  {
    Find(keys, (k: string) => Norm(k) in variants)
  }

  const DATE_NAMES: seq<string> := ["datum", "date", "drawdate", "draw_date"]
  const MAIN_NAMES: seq<seq<string>> :=
    [["z1", "m1", "n1"], ["z2", "m2", "n2"], ["z3", "m3", "n3"], ["z4", "m4", "n4"], ["z5", "m5", "n5"]]
  const EURO_NAMES: seq<seq<string>> := [["e1", "zz1", "euro1"], ["e2", "zz2", "euro2"]]
  const GKL_NAMES: seq<seq<string>> := [
    ["gkl1", "class1", "g1"], ["gkl2", "class2", "g2"], ["gkl3", "class3", "g3"],
    ["gkl4", "class4", "g4"], ["gkl5", "class5", "g5"], ["gkl6", "class6", "g6"],
    ["gkl7", "class7", "g7"], ["gkl8", "class8", "g8"], ["gkl9", "class9", "g9"],
    ["gkl10", "class10", "g10"], ["gkl11", "class11", "g11"], ["gkl12", "class12", "g12"]]

  /** The `col` record. A found key is never the empty string (no variant is
      empty), so the source's falsiness tests are tests for "not found". */
  datatype Columns = Columns(date: Option<string>, z: seq<Option<string>>, e: seq<Option<string>>, g: seq<Option<string>>)

  function FindEach(keys: seq<string>, names: seq<seq<string>>): (r: seq<Option<string>>)
    ensures |r| == |names|
    ensures forall i :: 0 <= i < |names| ==> r[i] == FindKey(keys, names[i])
  {
    seq(|names|, i requires 0 <= i < |names| => FindKey(keys, names[i]))
  }

  /** Five main columns, two euro columns, twelve payout columns. */
  predicate Shaped(cols: Columns)
  {
    |cols.z| == 5 && |cols.e| == 2 && |cols.g| == 12
  }

  function ResolveColumns(keys: seq<string>): (cols: Columns)
    ensures Shaped(cols)
  {
    Columns(FindKey(keys, DATE_NAMES), FindEach(keys, MAIN_NAMES), FindEach(keys, EURO_NAMES), FindEach(keys, GKL_NAMES))
  }

  /** `Object.keys(rows[0] || {})`. */
  function FirstHeader(rows: seq<Row>): seq<string>
  {
    if |rows| == 0 then [] else rows[0].header
  }

  predicate AllFound(ks: seq<Option<string>>)
  {
    forall i :: 0 <= i < |ks| ==> ks[i].Some?
  }

  // ---------------------------------------------------------------------------
  // One row

  /** `r[key]` for a resolved column. */
  function At(r: Row, key: Option<string>): Cell
  {
    if key.Some? then Get(r, key.value) else Absent
  }

  /** `Number(r[col])` for each of the given columns. */
  function Numbers(r: Row, ks: seq<Option<string>>, lib: Lib): (ns: seq<Option<int>>)
    ensures |ns| == |ks|
  {
    seq(|ks|, i requires 0 <= i < |ks| => lib.toNumber(At(r, ks[i])))
  }

  /** No number is NaN or infinite and every one lies in `1..max`. */
  predicate AllValid(ns: seq<Option<int>>, max: int)
  {
    forall i :: 0 <= i < |ns| ==> ns[i].Some? && 1 <= ns[i].value <= max
  }

  function Values(ns: seq<Option<int>>): (vs: seq<int>)
    requires forall i :: 0 <= i < |ns| ==> ns[i].Some?
    ensures |vs| == |ns| && forall i :: 0 <= i < |ns| ==> vs[i] == ns[i].value
  {
    seq(|ns|, i requires 0 <= i < |ns| => ns[i].value)
  }

  /** The payout of class k in row r, when its column exists and its cell is
      neither missing nor the empty string and converts to a number. */
  function AmountAt(r: Row, g: seq<Option<string>>, lib: Lib, k: int): Option<real>
    requires 1 <= k <= |g|
  {
    var c := At(r, g[k - 1]);
    if g[k - 1].Some? && c != Absent && c != Str("") then lib.toAmount(c) else None
  }

  /** The `gkl` record after the classes 1..k have been looked at. */
  function GklUpTo(r: Row, g: seq<Option<string>>, lib: Lib, k: nat): map<PrizeClass, real>
    requires k <= 12 && |g| == 12
  {
    if k == 0 then map[]
    else
      var m := GklUpTo(r, g, lib, k - 1);
      var a := AmountAt(r, g, lib, k);
      if a.Some? then m[k := a.value] else m
  }

  /** The record holds exactly the classes up to k with a numeric payout cell,
      each with that payout. */
  lemma {:induction false} GklUpToContents(r: Row, g: seq<Option<string>>, lib: Lib, k: nat)
    requires k <= 12 && |g| == 12
    ensures forall c: PrizeClass :: c in GklUpTo(r, g, lib, k) <==> c <= k && AmountAt(r, g, lib, c).Some?
    ensures forall c: PrizeClass :: c in GklUpTo(r, g, lib, k) ==> GklUpTo(r, g, lib, k)[c] == AmountAt(r, g, lib, c).value
  {
    if k > 0 {
      GklUpToContents(r, g, lib, k - 1);
    }
  }

  /** The loop `for (let i = 0; i < 12; i++)` filling `gkl`. */
  method FillGkl(r: Row, g: seq<Option<string>>, lib: Lib) returns (gkl: map<PrizeClass, real>)
    requires |g| == 12
    ensures gkl == GklUpTo(r, g, lib, 12)
  {
    gkl := map[];
    for i := 0 to 12
      invariant gkl == GklUpTo(r, g, lib, i)
    {
      var key := g[i];
      var c := At(r, key);
      if key.Some? && c != Absent && c != Str("") {
        var val := lib.toAmount(c);
        if val.Some? {
          gkl := gkl[i + 1 := val.value];
        }
      }
    }
  }

  /** The body of the row loop: the date, the mains, the euros, the payouts,
      then the range checks that abort the import. */
  function RowToDraw(r: Row, cols: Columns, lib: Lib): (res: Result<Draw>)
    requires Shaped(cols)
    ensures res.Ok? ==> WellFormed(res.value) && res.value.gkl == GklUpTo(r, cols.g, lib, 12)
    ensures res.Ok? <==> ToIsoDate(At(r, cols.date), lib).Ok?
                         && AllValid(Numbers(r, cols.z, lib), MAIN_MAX) && AllValid(Numbers(r, cols.e, lib), EURO_MAX)
    ensures res.Ok? ==> res.value.drawDate == ToIsoDate(At(r, cols.date), lib).value
    ensures res.Ok? ==> |res.value.z| == 5 && forall i :: 0 <= i < 5 ==> Numbers(r, cols.z, lib)[i] == Some(res.value.z[i])
    ensures res.Ok? ==> |res.value.e| == 2 && forall i :: 0 <= i < 2 ==> Numbers(r, cols.e, lib)[i] == Some(res.value.e[i])
    ensures ToIsoDate(At(r, cols.date), lib).Err? ==> res == Err(ToIsoDate(At(r, cols.date), lib).error)
    ensures ToIsoDate(At(r, cols.date), lib).Ok? && !AllValid(Numbers(r, cols.z, lib), MAIN_MAX) ==>
              res == Err(InvalidMains(ToIsoDate(At(r, cols.date), lib).value))
    ensures ToIsoDate(At(r, cols.date), lib).Ok? && AllValid(Numbers(r, cols.z, lib), MAIN_MAX)
              && !AllValid(Numbers(r, cols.e, lib), EURO_MAX) ==>
              res == Err(InvalidEuros(ToIsoDate(At(r, cols.date), lib).value))
  {
    match ToIsoDate(At(r, cols.date), lib)
    case Err(e) => Err(e)
    case Ok(date) =>
      var z := Numbers(r, cols.z, lib);
      var e := Numbers(r, cols.e, lib);
      if !AllValid(z, MAIN_MAX) then Err(InvalidMains(date))
      else if !AllValid(e, EURO_MAX) then Err(InvalidEuros(date))
      else Ok(Draw(date, Values(z), Values(e), GklUpTo(r, cols.g, lib, 12)))
  }

  // ---------------------------------------------------------------------------
  // parseRows

  /** The rows converted in order; the first failing row decides the error. */
  function Convert(rows: seq<Row>, cols: Columns, lib: Lib): Result<seq<Draw>>
    requires Shaped(cols)
  {
    if |rows| == 0 then Ok([])
    else
      match Convert(rows[..|rows| - 1], cols, lib)
      case Err(e) => Err(e)
      case Ok(ds) =>
        match RowToDraw(rows[|rows| - 1], cols, lib)
        case Err(e) => Err(e)
        case Ok(d) => Ok(ds + [d])
  }

  /** The whole import converts exactly when every row does, and then yields
      one draw per row, in row order. */
  lemma {:induction false} ConvertAll(rows: seq<Row>, cols: Columns, lib: Lib)
    requires Shaped(cols)
    ensures Convert(rows, cols, lib).Ok? <==> forall i :: 0 <= i < |rows| ==> RowToDraw(rows[i], cols, lib).Ok?
    ensures Convert(rows, cols, lib).Ok? ==>
      |Convert(rows, cols, lib).value| == |rows|
      && forall i :: 0 <= i < |rows| ==> Convert(rows, cols, lib).value[i] == RowToDraw(rows[i], cols, lib).value
  {
    if |rows| > 0 {
      var init := rows[..|rows| - 1];
      ConvertAll(init, cols, lib);
      assert forall i :: 0 <= i < |init| ==> init[i] == rows[i];
    }
  }

  function DateOf(d: Draw): string
  {
    d.drawDate
  }

  /** `parseRows(rows)` as a value: the column checks, the row loop, the sort. */
  function Import(rows: seq<Row>, lib: Lib): Result<seq<Draw>>
  {
    var cols := ResolveColumns(FirstHeader(rows));
    if cols.date.None? then Err(MissingDateColumn)
    else if !AllFound(cols.z) then Err(MissingMainColumns)
    else if !AllFound(cols.e) then Err(MissingEuroColumns)
    else
      match Convert(rows, cols, lib)
      case Err(e) => Err(e)
      case Ok(ds) => Ok(SortByText(ds, DateOf))
  }

  /** An import succeeds exactly when the date, main and euro columns are all
      found and every row converts: one bad row rejects the whole import. */
  lemma {:induction false} ImportSucceeds(rows: seq<Row>, lib: Lib)
    ensures var cols := ResolveColumns(FirstHeader(rows));
      Import(rows, lib).Ok? <==>
        cols.date.Some? && AllFound(cols.z) && AllFound(cols.e)
        && forall i :: 0 <= i < |rows| ==> RowToDraw(rows[i], cols, lib).Ok?
  {
    ConvertAll(rows, ResolveColumns(FirstHeader(rows)), lib);
  }

  /** Sorting the converted rows gives one well-formed draw per row, in
      ascending date order. */
  lemma {:induction false} SortedConversion(rows: seq<Row>, cols: Columns, lib: Lib)
    requires Shaped(cols) && Convert(rows, cols, lib).Ok?
    ensures var ds := SortByText(Convert(rows, cols, lib).value, DateOf);
      && |ds| == |rows|
      && SortedByText(ds, DateOf)
      && (forall d :: d in ds ==> WellFormed(d))
      && multiset(ds) == multiset(Convert(rows, cols, lib).value)
  {
    ConvertAll(rows, cols, lib);
    var conv := Convert(rows, cols, lib).value;
    var ds := SortByText(conv, DateOf);
    forall d | d in ds
      ensures WellFormed(d)
    {
      assert d in multiset(conv);
      var i :| 0 <= i < |conv| && conv[i] == d;
    }
  }

  /** A successful import holds one well-formed draw per row: the rows' draws
      reordered by ascending date. */
  lemma {:induction false} ImportContents(rows: seq<Row>, lib: Lib)
    requires Import(rows, lib).Ok?
    ensures var cols := ResolveColumns(FirstHeader(rows));
      var ds := Import(rows, lib).value;
      && |ds| == |rows|
      && SortedByText(ds, DateOf)
      && (forall d :: d in ds ==> WellFormed(d))
      && multiset(ds) == multiset(Convert(rows, cols, lib).value)
  {
    var cols := ResolveColumns(FirstHeader(rows));
    assert Import(rows, lib) == Ok(SortByText(Convert(rows, cols, lib).value, DateOf));
    SortedConversion(rows, cols, lib);
  }

  /** With no rows there is no header, so the import fails on the date column. */
  lemma {:induction false} EmptyImportFails(lib: Lib)
    ensures Import([], lib) == Err(MissingDateColumn)
  {
  }

  /** The row loop of `parseRows`. */
  method ConvertRows(rows: seq<Row>, cols: Columns, lib: Lib) returns (res: Result<seq<Draw>>)
    requires Shaped(cols)
    ensures res == Convert(rows, cols, lib)
  {
    var draws: seq<Draw> := [];
    for i := 0 to |rows|
      invariant Convert(rows[..i], cols, lib) == Ok(draws)
    {
      assert rows[..i + 1][..i] == rows[..i];
      var d := RowToDraw(rows[i], cols, lib);
      if d.Err? {
        ConvertStopsAt(rows, cols, lib, i + 1);
        return Err(d.error);
      }
      draws := draws + [d.value];
    }
    assert rows[..|rows|] == rows;
    res := Ok(draws);
  }

  /** Once a prefix of the rows fails, every longer prefix fails the same way. */
  lemma {:induction false} ConvertStopsAt(rows: seq<Row>, cols: Columns, lib: Lib, k: nat)
    requires Shaped(cols)
    requires 0 < k <= |rows| && Convert(rows[..k], cols, lib).Err?
    ensures Convert(rows, cols, lib) == Convert(rows[..k], cols, lib)
    decreases |rows| - k
  {
    if k == |rows| {
      assert rows[..k] == rows;
    } else {
      assert rows[..k + 1][..k] == rows[..k];
      ConvertStopsAt(rows, cols, lib, k + 1);
    }
  }

  /** `parseRows`: resolve the columns from the first row, reject the import
      when the date, a main or a euro column is missing, convert every row,
      and sort the draws by ascending date. */
  method ParseRows(rows: seq<Row>, lib: Lib) returns (res: Result<seq<Draw>>)
    ensures res == Import(rows, lib)
  {
    var cols := ResolveColumns(FirstHeader(rows));
    if cols.date.None? {
      return Err(MissingDateColumn);
    }
    if !AllFound(cols.z) {
      return Err(MissingMainColumns);
    }
    if !AllFound(cols.e) {
      return Err(MissingEuroColumns);
    }
    var converted := ConvertRows(rows, cols, lib);
    if converted.Err? {
      return Err(converted.error);
    }
    res := Ok(SortByText(converted.value, DateOf));
  }
}
