/**
  The concrete cases of tests/test_times.py, and a few calendar rollovers,
  stated against the model. Zone offsets are the ones in force on
  7 February 2026 (no daylight saving time in any of the three zones).
*/
module TimesScenarios {
  import opened Wrappers
  import opened Calendar
  import opened Clock
  import opened Times

  const Detroit: Locale := Locale("Detroit", "America/Detroit")
  const London: Locale := Locale("London", "Europe/London")
  const Tokyo: Locale := Locale("Tokyo", "Asia/Tokyo")

  /** EST is UTC-5, GMT is UTC+0, JST is UTC+9. */
  const Winter2026: ZoneDb := map["America/Detroit" := -300, "Europe/London" := 0, "Asia/Tokyo" := 540]

  const Feb7: Date := Date(2026, 2, 7)

  /** Hours 0 and 12 both read 12 under `%-I`; only the AM/PM suffix tells them apart. */
  lemma LabelTwelves()
    ensures Label(0) == "12:00 AM" && Label(12 * 60) == "12:00 PM"
  {
  }

  /** The labels the test cases expect, one hour at a time. */
  lemma LabelSevenPm()
    ensures Label(19 * 60) == "7:00 PM"
  {
  }

  lemma LabelTenPm()
    ensures Label(22 * 60) == "10:00 PM"
  {
  }

  lemma LabelTwoPm()
    ensures Label(14 * 60) == "2:00 PM"
  {
  }

  lemma LabelThreeAm()
    ensures Label(3 * 60) == "3:00 AM"
  {
  }

  lemma LabelFourAm()
    ensures Label(4 * 60) == "4:00 AM"
  {
  }

  /** Day advance rolls over month ends, February in leap and common years, and year ends. */
  lemma RolloverExamples()
    ensures AddDays(Date(2026, 1, 31), 1) == Date(2026, 2, 1)
    ensures AddDays(Date(2026, 2, 28), 1) == Date(2026, 3, 1)
    ensures AddDays(Date(2024, 2, 28), 1) == Date(2024, 2, 29)
    ensures AddDays(Date(2026, 12, 31), 1) == Date(2027, 1, 1)
    ensures AddDays(Date(2027, 1, 1), -1) == Date(2026, 12, 31)
  {
  }

  /** UTC 19:00 on 7 Feb 2026 is 4:00 AM on 8 Feb in Tokyo: the local date moves on by itself. */
  lemma TokyoNextDay()
    ensures Shift(UtcInstant(Feb7, 19, 0), 540) == DateTime(Date(2026, 2, 8), 4 * 60)
  {
  }

  /** UTC 19:00 on 7 Feb 2026 and its three local times all fall in storable dates. */
  lemma KnownFits()
    ensures RowFits([Detroit, London, Tokyo], Feb7, 19, 0, Winter2026)
  {
    var utc := UtcInstant(Feb7, 19, 0);
    assert utc == DateTime(Feb7, 19 * 60);
    assert Shift(utc, -300) == DateTime(Feb7, 14 * 60);
    assert Shift(utc, 0) == utc;
    assert Shift(utc, 540) == DateTime(Date(2026, 2, 8), 4 * 60);
  }

  /**
    The row of UTC 19:00 on 7 Feb 2026 for Detroit, London and Tokyo, one column at a time.
    The locales, start hour and zone table are parameters pinned by equalities rather than
    written as literals only to keep the verifier from evaluating the whole row in every
    lemma; the lemmas below are about this one row and nothing more general.
  */
  predicate KnownRowOf(locales: seq<Locale>, s: int, tz: ZoneDb, row: seq<string>) {
    locales == [Detroit, London, Tokyo] && s == 19 && tz == Winter2026
    && GridRow(locales, Feb7, s, 0, tz) == Ok(row)
  }

  lemma KnownUtcCell(locales: seq<Locale>, s: int, tz: ZoneDb, row: seq<string>)
    requires KnownRowOf(locales, s, tz, row)
    ensures |row| == 4 && row[0] == "7:00 PM"
  {
    RowShape(locales, Feb7, s, 0, tz);
    LabelSevenPm();
  }

  lemma KnownDetroitCell(locales: seq<Locale>, s: int, tz: ZoneDb, row: seq<string>)
    requires KnownRowOf(locales, s, tz, row)
    ensures |row| == 4 && row[1] == "2:00 PM"
  {
    CellShape(locales, Feb7, s, 0, tz, 0, -300);
    assert (60 * ((s + 0) % 24) + -300) % 1440 == 14 * 60;
    LabelTwoPm();
  }

  lemma KnownLondonCell(locales: seq<Locale>, s: int, tz: ZoneDb, row: seq<string>)
    requires KnownRowOf(locales, s, tz, row)
    ensures |row| == 4 && row[2] == "7:00 PM"
  {
    CellShape(locales, Feb7, s, 0, tz, 1, 0);
    assert (60 * ((s + 0) % 24) + 0) % 1440 == 19 * 60;
    LabelSevenPm();
  }

  lemma KnownTokyoCell(locales: seq<Locale>, s: int, tz: ZoneDb, row: seq<string>)
    requires KnownRowOf(locales, s, tz, row)
    ensures |row| == 4 && row[3] == "4:00 AM"
  {
    CellShape(locales, Feb7, s, 0, tz, 2, 540);
    assert (60 * ((s + 0) % 24) + 540) % 1440 == 4 * 60;
    LabelFourAm();
  }

  lemma KnownRow(locales: seq<Locale>, s: int, tz: ZoneDb, n: nat, rows: Grid)
    requires locales == [Detroit, London, Tokyo] && s == 19 && tz == Winter2026 && n == 1
    requires GridRows(locales, Feb7, s, n, tz) == Ok(rows)
    ensures rows == [["7:00 PM", "2:00 PM", "7:00 PM", "4:00 AM"]]
  {
    GridRowsOk(locales, Feb7, s, n, tz);
    var row := rows[0];
    assert KnownRowOf(locales, s, tz, row);
    KnownUtcCell(locales, s, tz, row);
    KnownDetroitCell(locales, s, tz, row);
    KnownLondonCell(locales, s, tz, row);
    KnownTokyoCell(locales, s, tz, row);
    assert row == ["7:00 PM", "2:00 PM", "7:00 PM", "4:00 AM"];
  }

  /** test_known_conversions: one row, UTC 7 PM, Detroit 2 PM, London 7 PM, Tokyo 4 AM. */
  lemma KnownConversions()
    ensures GridRows([Detroit, London, Tokyo], Feb7, 19, 1, Winter2026)
            == Ok([["7:00 PM", "2:00 PM", "7:00 PM", "4:00 AM"]])
  {
    var locales := [Detroit, London, Tokyo];
    KnownFits();
    GridOkIff(locales, Feb7, 19, 1, Winter2026);
    KnownRow(locales, 19, Winter2026, 1, GridRows(locales, Feb7, 19, 1, Winter2026).value);
  }

  /** test_twelve_rows: twelve hours from 10:00 UTC give twelve rows. */
  lemma TwelveRows()
    ensures GridRows([London], Feb7, 10, 12, Winter2026).Ok?
    ensures |GridRows([London], Feb7, 10, 12, Winter2026).value| == 12
  {
    forall i | 0 <= i < 12
      ensures RowFits([London], Feb7, 10, i, Winter2026)
    {
      assert UtcInstant(Feb7, 10, i) == DateTime(Feb7, 60 * (10 + i));
    }
    GridOkIff([London], Feb7, 10, 12, Winter2026);
    GridShape([London], Feb7, 10, 12, Winter2026, GridRows([London], Feb7, 10, 12, Winter2026).value);
  }

  /** The UTC instants of the six rows from 22:00: two on 7 Feb, then four on 8 Feb. */
  lemma PastMidnightInstants(i: int)
    requires 0 <= i < 6
    ensures UtcInstant(Feb7, 22, i)
            == if i < 2 then DateTime(Feb7, 60 * (22 + i)) else DateTime(Date(2026, 2, 8), 60 * (i - 2))
  {
    if i >= 2 {
      assert (22 + i) / 24 == 1;
    }
  }

  lemma PastMidnightFits(i: int)
    requires 0 <= i < 6
    ensures RowFits([London], Feb7, 22, i, Winter2026)
  {
    PastMidnightInstants(i);
  }

  lemma PastMidnightOk()
    ensures GridRows([London], Feb7, 22, 6, Winter2026).Ok?
  {
    forall i | 0 <= i < 6
      ensures RowFits([London], Feb7, 22, i, Winter2026)
    {
      PastMidnightFits(i);
    }
    GridOkIff([London], Feb7, 22, 6, Winter2026);
  }

  lemma PastMidnightLabels(s: int, n: nat, rows: Grid)
    requires s == 22 && n == 6 && GridRows([London], Feb7, s, n, Winter2026) == Ok(rows)
    ensures |rows| == 6 && |rows[0]| == |rows[5]| == 2
    ensures rows[0][0] == "10:00 PM" && rows[5][0] == "3:00 AM"
  {
    GridRowsOk([London], Feb7, s, n, Winter2026);
    RowShape([London], Feb7, s, 0, Winter2026);
    RowShape([London], Feb7, s, 5, Winter2026);
    LabelTenPm();
    LabelThreeAm();
    assert rows[0][0] == Label(22 * 60);
    assert rows[5][0] == Label(3 * 60);
  }

  /** test_wraps_past_midnight: from 22:00 UTC, six rows run 10 PM .. 3 AM, the last ones on 8 Feb. */
  lemma WrapsPastMidnight()
    ensures GridRows([London], Feb7, 22, 6, Winter2026).Ok?
    ensures var rows := GridRows([London], Feb7, 22, 6, Winter2026).value;
            |rows| == 6 && |rows[0]| == |rows[5]| == 2
            && rows[0][0] == "10:00 PM" && rows[5][0] == "3:00 AM"
    ensures UtcInstant(Feb7, 22, 5).date == Date(2026, 2, 8)
  {
    PastMidnightOk();
    PastMidnightLabels(22, 6, GridRows([London], Feb7, 22, 6, Winter2026).value);
    PastMidnightInstants(5);
  }
}
