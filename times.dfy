/**
  The hour grid of `compute_hours` (src/tick/times.py): for each of
  `hour_range` consecutive UTC hours starting at `start_hour` on a given
  date, one row holding the UTC label followed by one local label per
  locale, in the locales' order.

  The timezone database is a parameter: a map from IANA key to a fixed UTC
  offset in minutes. A key missing from it is `ZoneInfoNotFoundError`; an
  instant whose date leaves years 1 .. 9999 is `OverflowError`. Either one
  ends the call without a grid.
*/
module Times {
  import opened Wrappers
  import opened Calendar
  import opened Clock
  import opened Traverse

  /** A configured place: display name and the IANA key of its timezone. */
  datatype Locale = Locale(name: string, ianaTz: string)

  /** IANA key to fixed offset from UTC, in minutes (east positive). */
  type ZoneDb = map<string, int>

  /** The exceptions `compute_hours` can raise. */
  datatype TimeError =
    | Overflow                   // a date outside years 1 .. 9999
    | ZoneNotFound(key: string)  // an IANA key the database does not know

  type Grid = seq<seq<string>>

  /** `start_hour + offset` split into its day carry (`// 24`) and UTC hour (`% 24`). */
  function SplitHour(t: int): (r: (int, int))
    ensures 0 <= r.1 < 24
    ensures 24 * r.0 + r.1 == t
  {
    (t / 24, t % 24)
  }

  /** The UTC instant of row `offset`: `startHour + offset` hours after midnight of `day`. */
  function UtcInstant(day: Date, startHour: int, offset: int): (t: DateTime)
    requires Valid(day)
    ensures ValidDateTime(t)
  {
    var (carry, hour) := SplitHour(startHour + offset);
    DateTime(AddDays(day, carry), hour * 60)
  }

  /** One locale's column: the UTC instant converted to the locale's zone and printed. */
  function LocalCell(utc: DateTime, loc: Locale, tzdb: ZoneDb): Result<string, TimeError>
    requires ValidDateTime(utc)
  {
    if loc.ianaTz !in tzdb then Err(ZoneNotFound(loc.ianaTz))
    else
      var local := Shift(utc, tzdb[loc.ianaTz]);
      if !InRange(local.date) then Err(Overflow) else Ok(Label(local.minute))
  }

  /** The step of the inner loop: a locale's cell at the instant `utc`. */
  function CellAt(utc: DateTime, tzdb: ZoneDb): Locale -> Result<string, TimeError>
    requires ValidDateTime(utc)
  {
    loc => LocalCell(utc, loc, tzdb)
  }

  /** The columns of `locs` in order, or the error of the first locale that fails. */
  function LocalCells(utc: DateTime, locs: seq<Locale>, tzdb: ZoneDb): Result<seq<string>, TimeError>
    requires ValidDateTime(utc)
  {
    MapResult(CellAt(utc, tzdb), locs)
  }

  /** The row printed for the UTC instant `utc`: its label, then the locale columns. */
  function RowAt(utc: DateTime, locales: seq<Locale>, tzdb: ZoneDb): Result<seq<string>, TimeError>
    requires ValidDateTime(utc)
  {
    match LocalCells(utc, locales, tzdb)
    case Err(e) => Err(e)
    case Ok(cells) => Ok([Label(utc.minute)] + cells)
  }

  /** Row `offset` of the grid, or Overflow when its UTC date cannot be stored. */
  function GridRow(locales: seq<Locale>, day: Date, startHour: int, offset: int, tzdb: ZoneDb)
    : Result<seq<string>, TimeError>
    requires Valid(day)
  {
    var utc := UtcInstant(day, startHour, offset);
    if !InRange(utc.date) then Err(Overflow) else RowAt(utc, locales, tzdb)
  }

  /** `range(n)`: the offsets 0 .. n - 1 in order. */
  function Range(n: nat): (r: seq<int>)
    ensures |r| == n && forall i :: 0 <= i < n ==> r[i] == i
  {
    seq(n, i => i)
  }

  /** The step of the outer loop: the row of an offset. */
  function RowFor(locales: seq<Locale>, day: Date, startHour: int, tzdb: ZoneDb): int -> Result<seq<string>, TimeError>
    requires Valid(day)
  {
    offset => GridRow(locales, day, startHour, offset, tzdb)
  }

  /** The first `n` rows in order, or the error of the first row that fails. */
  function GridRows(locales: seq<Locale>, day: Date, startHour: int, n: nat, tzdb: ZoneDb)
    : Result<Grid, TimeError>
    requires Valid(day)
  {
    MapResult(RowFor(locales, day, startHour, tzdb), Range(n))
  }

  /** The number of offsets `range(hour_range)` yields. */
  function RowCount(hourRange: int): nat {
    if hourRange > 0 then hourRange else 0
  }

  /** The first `n` offsets of a longer range are `range(n)`. */
  lemma RangePrefix(n: nat, m: nat)
    requires n <= m
    ensures Range(m)[..n] == Range(n)
  {
  }

  /** One more row: the earlier rows and that row, or its error. */
  lemma GridRowsStep(locales: seq<Locale>, day: Date, startHour: int, n: nat, tzdb: ZoneDb, rows: Grid)
    requires Valid(day)
    requires GridRows(locales, day, startHour, n, tzdb) == Ok(rows)
    ensures GridRows(locales, day, startHour, n + 1, tzdb)
            == match GridRow(locales, day, startHour, n, tzdb)
               case Err(e) => Err(e)
               case Ok(row) => Ok(rows + [row])
  {
    RangePrefix(n, n + 1);
    RangePrefix(n + 1, n + 1);
    MapResultStep(RowFor(locales, day, startHour, tzdb), Range(n + 1), n, rows);
  }

  /** Once a row fails, every longer grid fails with the same error. */
  lemma GridRowsErrSticks(locales: seq<Locale>, day: Date, startHour: int, j: nat, n: nat, tzdb: ZoneDb)
    requires Valid(day)
    requires j <= n && GridRows(locales, day, startHour, j, tzdb).Err?
    ensures GridRows(locales, day, startHour, n, tzdb) == GridRows(locales, day, startHour, j, tzdb)
  {
    RangePrefix(j, n);
    MapResultErrSticks(RowFor(locales, day, startHour, tzdb), Range(n), j);
  }

  /**
    The body of the inner loop: look the locale's zone up, convert the instant, print it.
    It follows LocalCell step for step; what the cell means is stated independently of
    both by CellShape, RowShape and GridOkIff.
  */
  method ConvertCell(utcDt: DateTime, loc: Locale, tzdb: ZoneDb) returns (result: Result<string, TimeError>)
    requires ValidDateTime(utcDt)
    ensures result == LocalCell(utcDt, loc, tzdb)
  {
    var key := loc.ianaTz;
    if key !in tzdb {
      return Err(ZoneNotFound(key));
    }
    var localDt := Shift(utcDt, tzdb[key]);
    if !InRange(localDt.date) {
      return Err(Overflow);
    }
    return Ok(Label(localDt.minute));
  }

  /** One pass of the inner loop: the next locale's cell extends the columns, or its error is the row's. */
  lemma CellsStep(utc: DateTime, locales: seq<Locale>, k: nat, tzdb: ZoneDb, cells: seq<string>)
    requires ValidDateTime(utc) && k < |locales|
    requires LocalCells(utc, locales[..k], tzdb) == Ok(cells)
    ensures LocalCell(utc, locales[k], tzdb).Ok? ==>
              LocalCells(utc, locales[..k + 1], tzdb) == Ok(cells + [LocalCell(utc, locales[k], tzdb).value])
    ensures LocalCell(utc, locales[k], tzdb).Err? ==>
              RowAt(utc, locales, tzdb) == Err(LocalCell(utc, locales[k], tzdb).error)
  {
    MapResultStep(CellAt(utc, tzdb), locales, k, cells);
    if LocalCell(utc, locales[k], tzdb).Err? {
      MapResultErrSticks(CellAt(utc, tzdb), locales, k + 1);
    }
  }

  /** The inner loop of `compute_hours`: one row for the UTC instant `utcDt`. */
  method BuildRow(utcDt: DateTime, locales: seq<Locale>, tzdb: ZoneDb)
    returns (result: Result<seq<string>, TimeError>)
    requires ValidDateTime(utcDt)
    ensures result == RowAt(utcDt, locales, tzdb)
  {
    var utcLabel := Label(utcDt.minute);
    var row := [utcLabel];
    ghost var cells: seq<string> := [];
    var k := 0;
    assert locales[..k] == [];
    while k < |locales|
      invariant 0 <= k <= |locales|
      invariant row == [utcLabel] + cells
      invariant LocalCells(utcDt, locales[..k], tzdb) == Ok(cells)
    {
      CellsStep(utcDt, locales, k, tzdb, cells);
      var cell := ConvertCell(utcDt, locales[k], tzdb);
      if cell.Err? {
        return Err(cell.error);
      }
      row := row + [cell.value];
      cells := cells + [cell.value];
      k := k + 1;
    }
    assert locales[..k] == locales;
    return Ok(row);
  }

  /**
    One pass of the outer loop of `compute_hours`: the row for `offset`. It follows
    GridRow step for step; UtcInstantParts and GridShape say what that row is.
  */
  method HourRow(locales: seq<Locale>, timeWindow: Date, startHour: int, offset: int, tzdb: ZoneDb)
    returns (result: Result<seq<string>, TimeError>)
    requires Valid(timeWindow)
    ensures result == GridRow(locales, timeWindow, startHour, offset, tzdb)
  {
    var utcHour := (startHour + offset) % 24;
    var dayOffset := (startHour + offset) / 24;
    var utcDate := AddDays(timeWindow, dayOffset);
    if !InRange(utcDate) {
      return Err(Overflow);
    }
    var utcDt := DateTime(utcDate, utcHour * 60);
    assert utcDt == UtcInstant(timeWindow, startHour, offset);
    result := BuildRow(utcDt, locales, tzdb);
  }

  /**
    `compute_hours(locales, time_window, hour_range, start_hour)` with the
    zone lookup and conversion taken from `tzdb`. A Python `date` always
    lies in years 1 .. 9999, hence `InRange(timeWindow)`.
  */
  method ComputeHours(locales: seq<Locale>, timeWindow: Date, hourRange: int, startHour: int, tzdb: ZoneDb)
    returns (result: Result<Grid, TimeError>)
    requires Valid(timeWindow) && InRange(timeWindow)
    ensures result == GridRows(locales, timeWindow, startHour, RowCount(hourRange), tzdb)
  {
    var rows: Grid := [];
    var offset := 0;
    while offset < hourRange
      invariant 0 <= offset <= RowCount(hourRange)
      invariant GridRows(locales, timeWindow, startHour, offset, tzdb) == Ok(rows)
    {
      var row := HourRow(locales, timeWindow, startHour, offset, tzdb);
      GridRowsStep(locales, timeWindow, startHour, offset, tzdb, rows);
      if row.Err? {
        assert GridRows(locales, timeWindow, startHour, offset + 1, tzdb) == Err(row.error);
        GridRowsErrSticks(locales, timeWindow, startHour, offset + 1, RowCount(hourRange), tzdb);
        return Err(row.error);
      }
      rows := rows + [row.value];
      offset := offset + 1;
    }
    assert offset == RowCount(hourRange);
    return Ok(rows);
  }

  /** The default of `hour_range`. */
  const DefaultHourRange: int := 12

  /** `compute_hours(locales, time_window, start_hour=start_hour)`: twelve hours by default. */
  method ComputeHoursDefault(locales: seq<Locale>, timeWindow: Date, startHour: int, tzdb: ZoneDb)
    returns (result: Result<Grid, TimeError>)
    requires Valid(timeWindow) && InRange(timeWindow)
    ensures result == GridRows(locales, timeWindow, startHour, 12, tzdb)
  {
    result := ComputeHours(locales, timeWindow, DefaultHourRange, startHour, tzdb);
  }

  /** What `hour_range <= 0` yields: no rows at all. */
  lemma EmptyRange(locales: seq<Locale>, day: Date, hourRange: int, startHour: int, tzdb: ZoneDb)
    requires Valid(day) && hourRange <= 0
    ensures GridRows(locales, day, startHour, RowCount(hourRange), tzdb) == Ok([])
  {
  }

  // ---------------------------------------------------------------------
  // Properties of the hour split and of the UTC instants
  // ---------------------------------------------------------------------

  /** Row `offset` is `startHour + offset` hours after midnight UTC of the start date. */
  lemma UtcInstantTimeline(day: Date, startHour: int, offset: int)
    requires Valid(day)
    ensures Timeline(UtcInstant(day, startHour, offset))
            == Timeline(DateTime(day, 0)) + 60 * (startHour + offset)
  {
    AddDaysOrdinal(day, (startHour + offset) / 24);
  }

  /**
    Row `offset`'s UTC date is the start date advanced by the day carry, i.e.
    the valid date whose day number is `(startHour + offset) // 24` larger,
    and its hour is `(startHour + offset) % 24`.
  */
  lemma UtcInstantParts(day: Date, startHour: int, offset: int, e: Date)
    requires Valid(day) && Valid(e)
    ensures UtcInstant(day, startHour, offset).minute == 60 * ((startHour + offset) % 24)
    ensures UtcInstant(day, startHour, offset).date == e
            <==> ToOrdinal(e) == ToOrdinal(day) + (startHour + offset) / 24
  {
    AddDaysUnique(day, (startHour + offset) / 24, e);
  }

  /** Consecutive rows are exactly one hour apart, and the day carry never decreases. */
  lemma ConsecutiveRows(day: Date, startHour: int, offset: int)
    requires Valid(day)
    ensures Timeline(UtcInstant(day, startHour, offset + 1))
            == Timeline(UtcInstant(day, startHour, offset)) + 60
    ensures ToOrdinal(UtcInstant(day, startHour, offset).date)
            <= ToOrdinal(UtcInstant(day, startHour, offset + 1).date)
            <= ToOrdinal(UtcInstant(day, startHour, offset).date) + 1
  {
    UtcInstantTimeline(day, startHour, offset);
    UtcInstantTimeline(day, startHour, offset + 1);
  }

  // ---------------------------------------------------------------------
  // Shape and contents of the grid
  // ---------------------------------------------------------------------

  /** The row succeeds exactly when every locale's cell does, and then holds those cells in order. */
  lemma LocalCellsOk(utc: DateTime, locs: seq<Locale>, tzdb: ZoneDb)
    requires ValidDateTime(utc)
    ensures LocalCells(utc, locs, tzdb).Ok?
            <==> forall k :: 0 <= k < |locs| ==> LocalCell(utc, locs[k], tzdb).Ok?
    ensures LocalCells(utc, locs, tzdb).Ok? ==>
              |LocalCells(utc, locs, tzdb).value| == |locs|
              && forall k :: 0 <= k < |locs| ==>
                   LocalCells(utc, locs, tzdb).value[k] == LocalCell(utc, locs[k], tzdb).value
  {
    MapResultOk(CellAt(utc, tzdb), locs);
  }

  /** A failing row reports the error of its first failing locale. */
  lemma LocalCellsFirstError(utc: DateTime, locs: seq<Locale>, tzdb: ZoneDb)
    requires ValidDateTime(utc)
    requires LocalCells(utc, locs, tzdb).Err?
    ensures exists k :: 0 <= k < |locs| && LocalCell(utc, locs[k], tzdb).Err?
              && LocalCell(utc, locs[k], tzdb).error == LocalCells(utc, locs, tzdb).error
              && forall j :: 0 <= j < k ==> LocalCell(utc, locs[j], tzdb).Ok?
  {
    MapResultFirstError(CellAt(utc, tzdb), locs);
  }

  /** The grid succeeds exactly when every row does, and then holds those rows in order. */
  lemma GridRowsOk(locales: seq<Locale>, day: Date, startHour: int, n: nat, tzdb: ZoneDb)
    requires Valid(day)
    ensures GridRows(locales, day, startHour, n, tzdb).Ok?
            <==> forall i :: 0 <= i < n ==> GridRow(locales, day, startHour, i, tzdb).Ok?
    ensures GridRows(locales, day, startHour, n, tzdb).Ok? ==>
              |GridRows(locales, day, startHour, n, tzdb).value| == n
              && forall i :: 0 <= i < n ==>
                   GridRows(locales, day, startHour, n, tzdb).value[i]
                   == GridRow(locales, day, startHour, i, tzdb).value
  {
    var f, offsets := RowFor(locales, day, startHour, tzdb), Range(n);
    MapResultOk(f, offsets);
    forall i | 0 <= i < n
      ensures f(offsets[i]) == GridRow(locales, day, startHour, i, tzdb)
    {
      assert offsets[i] == i;
    }
  }

  /** A failing grid reports the error of its first failing row. */
  lemma GridRowsFirstError(locales: seq<Locale>, day: Date, startHour: int, n: nat, tzdb: ZoneDb)
    requires Valid(day)
    requires GridRows(locales, day, startHour, n, tzdb).Err?
    ensures exists i :: 0 <= i < n && GridRow(locales, day, startHour, i, tzdb).Err?
              && GridRow(locales, day, startHour, i, tzdb).error == GridRows(locales, day, startHour, n, tzdb).error
              && forall j :: 0 <= j < i ==> GridRow(locales, day, startHour, j, tzdb).Ok?
  {
    var f, offsets := RowFor(locales, day, startHour, tzdb), Range(n);
    MapResultFirstError(f, offsets);
    var i :| 0 <= i < n && f(offsets[i]).Err? && f(offsets[i]).error == GridRows(locales, day, startHour, n, tzdb).error
             && forall j :: 0 <= j < i ==> f(offsets[j]).Ok?;
    forall j | 0 <= j <= i
      ensures f(offsets[j]) == GridRow(locales, day, startHour, j, tzdb)
    {
      assert offsets[j] == j;
    }
  }

  /** A successful row: the UTC label, then each locale's time, the UTC hour moved by its offset. */
  lemma RowShape(locales: seq<Locale>, day: Date, startHour: int, offset: int, tzdb: ZoneDb)
    requires Valid(day)
    requires GridRow(locales, day, startHour, offset, tzdb).Ok?
    ensures var row := GridRow(locales, day, startHour, offset, tzdb).value;
            |row| == 1 + |locales|
            && row[0] == Label(60 * ((startHour + offset) % 24))
            && forall k :: 0 <= k < |locales| ==>
                 locales[k].ianaTz in tzdb
                 && row[k + 1] == Label((60 * ((startHour + offset) % 24) + tzdb[locales[k].ianaTz]) % 1440)
  {
    LocalCellsOk(UtcInstant(day, startHour, offset), locales, tzdb);
  }

  /** Column k + 1 of a successful row is locale k's time: the UTC hour moved by its offset `z`. */
  lemma CellShape(locales: seq<Locale>, day: Date, startHour: int, offset: int, tzdb: ZoneDb, k: int, z: int)
    requires Valid(day)
    requires GridRow(locales, day, startHour, offset, tzdb).Ok?
    requires 0 <= k < |locales| && locales[k].ianaTz in tzdb && tzdb[locales[k].ianaTz] == z
    ensures var row := GridRow(locales, day, startHour, offset, tzdb).value;
            |row| == 1 + |locales| && row[k + 1] == Label((60 * ((startHour + offset) % 24) + z) % 1440)
  {
    RowShape(locales, day, startHour, offset, tzdb);
  }

  /**
    The shape and contents of a successful grid: `n` rows of `1 + |locales|`
    labels; row i starts with the label of UTC hour `(startHour + i) % 24`,
    and column k + 1 holds locale k's time, that hour moved by the locale's
    offset and wrapped to the 24-hour day.
  */
  lemma GridShape(locales: seq<Locale>, day: Date, startHour: int, n: nat, tzdb: ZoneDb, rows: Grid)
    requires Valid(day)
    requires GridRows(locales, day, startHour, n, tzdb) == Ok(rows)
    ensures |rows| == n
    ensures forall i :: 0 <= i < n ==> |rows[i]| == 1 + |locales|
    ensures forall i :: 0 <= i < n ==> rows[i][0] == Label(60 * ((startHour + i) % 24))
    ensures forall i, k :: 0 <= i < n && 0 <= k < |locales| ==>
              locales[k].ianaTz in tzdb
              && rows[i][k + 1] == Label((60 * ((startHour + i) % 24) + tzdb[locales[k].ianaTz]) % 1440)
  {
    GridRowsOk(locales, day, startHour, n, tzdb);
    forall i | 0 <= i < n
      ensures |rows[i]| == 1 + |locales|
      ensures rows[i][0] == Label(60 * ((startHour + i) % 24))
      ensures forall k :: 0 <= k < |locales| ==>
                locales[k].ianaTz in tzdb
                && rows[i][k + 1] == Label((60 * ((startHour + i) % 24) + tzdb[locales[k].ianaTz]) % 1440)
    {
      RowShape(locales, day, startHour, i, tzdb);
    }
  }

  /** Everything the grid converts fits: the UTC date and every locale's zone and local date. */
  predicate RowFits(locales: seq<Locale>, day: Date, startHour: int, offset: int, tzdb: ZoneDb)
    requires Valid(day)
  {
    var utc := UtcInstant(day, startHour, offset);
    InRange(utc.date)
    && forall k :: 0 <= k < |locales| ==>
         locales[k].ianaTz in tzdb && InRange(Shift(utc, tzdb[locales[k].ianaTz]).date)
  }

  /** `compute_hours` returns a grid exactly when every row fits; otherwise it raises. */
  lemma GridOkIff(locales: seq<Locale>, day: Date, startHour: int, n: nat, tzdb: ZoneDb)
    requires Valid(day)
    ensures GridRows(locales, day, startHour, n, tzdb).Ok?
            <==> forall i :: 0 <= i < n ==> RowFits(locales, day, startHour, i, tzdb)
  {
    GridRowsOk(locales, day, startHour, n, tzdb);
    forall i | 0 <= i < n
      ensures GridRow(locales, day, startHour, i, tzdb).Ok? <==> RowFits(locales, day, startHour, i, tzdb)
    {
      LocalCellsOk(UtcInstant(day, startHour, i), locales, tzdb);
    }
  }

  /** The only errors are an out-of-range date and an unknown zone key of one of the locales. */
  lemma GridErrors(locales: seq<Locale>, day: Date, startHour: int, n: nat, tzdb: ZoneDb)
    requires Valid(day)
    requires GridRows(locales, day, startHour, n, tzdb).Err?
    ensures var e := GridRows(locales, day, startHour, n, tzdb).error;
            e == Overflow
            || (e.key !in tzdb && exists k :: 0 <= k < |locales| && locales[k].ianaTz == e.key)
  {
    GridRowsFirstError(locales, day, startHour, n, tzdb);
    var i :| 0 <= i < n && GridRow(locales, day, startHour, i, tzdb).Err?
             && GridRow(locales, day, startHour, i, tzdb).error == GridRows(locales, day, startHour, n, tzdb).error;
    var utc := UtcInstant(day, startHour, i);
    if InRange(utc.date) {
      LocalCellsFirstError(utc, locales, tzdb);
    }
  }
}
