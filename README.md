# tick: the hour grid of `compute_hours`

`compute_hours(locales, time_window, hour_range, start_hour)` builds the
table that the tick clock shows. It has one row per UTC hour, starting at
`start_hour` on the date `time_window` and running for `hour_range` hours.
Each row holds the UTC time as a 12-hour label (`"%-I:%M %p"`, e.g.
`"7:00 PM"`), followed by the same instant in each locale's timezone, in the
order of the locales.

This project models that function in Dafny. It has six modules:

- `Wrappers` holds `Option` and `Result`.
- `Traverse` holds `MapResult`, the loop shape both loops of `compute_hours` share. It computes one value per element, in order, and stops at the first element that raises.
- `Calendar` models proleptic Gregorian dates, the way Python's `date` stores them:
  - `AddDays` is `date + timedelta(days = n)`;
  - `ToOrdinal` is `date.toordinal()`, which serves as the reference definition that `AddDays` is proved against;
  - only years 1 to 9999 can be stored.
- `Clock` models an instant as a date plus a minute of the day. It has:
  - `Shift`, which moves an instant by a number of minutes;
  - `Label`, the 12-hour label;
  - `ParseLabel`, an independent reader that inverts `Label`.
- `Times` has two parts:
  - the specification of the grid as functions (`LocalCell`, `RowAt`, `GridRow`, `GridRows`);
  - the imperative algorithm as methods with loops (`ComputeHours` over the offsets, `BuildRow` over the locales), each proved equal to its specification.
- `TimesScenarios` restates the repository's test cases against the model.

The timezone database is a parameter `tzdb: map<string, int>`. It maps an IANA key to a fixed offset from UTC, in minutes. The call ends without a grid in two cases:

- a key missing from `tzdb` gives `Err(ZoneNotFound(key))`, which is what `ZoneInfo` raises as `ZoneInfoNotFoundError`;
- an instant whose date leaves years 1 to 9999 gives `Err(Overflow)`, which is Python's `OverflowError`.

`start_hour` is an input: the clock read is not modelled. Python's `//` and `%` by 24 floor, and for a positive divisor they agree with Dafny's Euclidean `/` and `%`, so `start_hour` may be any integer.

## Model

| member | source | states |
|---|---|---|
| Times.ComputeHours | src/tick/times.py:5-43 | the method's result is exactly `GridRows` over `range(hour_range)` offsets (`RowCount`), including the first error raised |
| Times.ComputeHoursDefault | src/tick/times.py:8 | called without `hour_range`, the result is the grid of the default twelve offsets |
| Times.GridRows | src/tick/times.py:18-43 | no contract of its own: the specification of the grid; GridRowsOk, GridRowsFirstError, GridShape, GridOkIff and GridErrors give its meaning, and ComputeHours is proved equal to it |
| Times.GridRow | src/tick/times.py:20-41 | no contract of its own: one row, or Overflow when the UTC date cannot be stored; RowShape, CellShape and GridOkIff give its meaning, and HourRow is proved equal to it |
| Times.RowAt | src/tick/times.py:34-40 | no contract of its own: the UTC label followed by the locale columns, or the first locale's error; RowShape and LocalCellsOk give its meaning, and BuildRow is proved equal to it |
| Times.LocalCell | src/tick/times.py:38-40 | no contract of its own: one locale's converted label, ZoneNotFound or Overflow; CellShape, GridOkIff and GridErrors give its meaning, and ConvertCell is proved equal to it |
| Times.CellsStep | src/tick/times.py:37-40 | one pass of the locale loop appends that locale's cell, or its error becomes the row's error |
| Times.HourRow | src/tick/times.py:20-41 | one pass of the outer loop returns `GridRow` for that offset: Overflow when the advanced UTC date cannot be stored, otherwise the row |
| Times.BuildRow | src/tick/times.py:34-40 | the inner loop returns the UTC label followed by every locale's cell in order, or the first locale's error (`RowAt`) |
| Times.ConvertCell | src/tick/times.py:38-40 | one locale's cell: ZoneNotFound for an unknown key, Overflow when the local date cannot be stored, else the local label (`LocalCell`) |
| Times.EmptyRange | src/tick/times.py:18-19 | `hour_range <= 0` yields an empty grid |
| Times.SplitHour | src/tick/times.py:20-21 | the UTC hour lies in 0 .. 23 and `24 * day_offset + utc_hour == start_hour + offset` |
| Times.UtcInstant | src/tick/times.py:20-32 | row `offset`'s UTC instant is a well-formed date and minute of day |
| Times.UtcInstantTimeline | src/tick/times.py:20-32 | row `offset`'s instant lies exactly `start_hour + offset` hours after midnight UTC of the start date |
| Times.UtcInstantParts | src/tick/times.py:20-32 | the instant's minute is `60 * ((start_hour + offset) % 24)`, and its date is the valid date whose day number is `(start_hour + offset) // 24` larger, in both directions |
| Times.ConsecutiveRows | src/tick/times.py:19-32 | consecutive rows are exactly one UTC hour apart, and the day carry never decreases and grows by at most one |
| Times.GridRowsStep | src/tick/times.py:19-41 | one more offset appends that row to the grid, or raises that row's error |
| Times.GridRowsErrSticks | src/tick/times.py:19-41 | once a row raises, every longer range raises the same error |
| Times.LocalCellsOk | src/tick/times.py:37-40 | the locale columns are built exactly when every locale's cell is, and column k is locale k's cell |
| Times.LocalCellsFirstError | src/tick/times.py:37-40 | a failed row reports the error of its first failing locale, and all earlier locales succeeded |
| Times.GridRowsOk | src/tick/times.py:19-41 | the grid is built exactly when every row is; it then has `n` rows and row i is `GridRow(i)` |
| Times.GridRowsFirstError | src/tick/times.py:19-41 | a failed grid reports the error of its first failing row, and all earlier rows succeeded |
| Times.RowShape | src/tick/times.py:34-40 | a row has `1 + |locales|` labels; label 0 is UTC hour `(start_hour + offset) % 24`; label k + 1 is that hour moved by locale k's offset, wrapped to the day |
| Times.CellShape | src/tick/times.py:38-40 | column k + 1 of a row is locale k's time: the UTC minute of day plus its offset `z`, wrapped to the day and labelled |
| Times.GridShape | src/tick/times.py:11-13 | a grid has `n` rows of `1 + |locales|` labels; row i starts with UTC hour `(start_hour + i) % 24` and column k + 1 is locale k's time, so locale order is kept |
| Times.GridOkIff | src/tick/times.py:22-40 | `compute_hours` returns a grid exactly when every row's UTC date, every locale's zone key and every local date fit |
| Times.GridErrors | src/tick/times.py:32-39 | the only errors are Overflow and ZoneNotFound for a key that is missing from the database and that belongs to one of the locales |
| Traverse.MapResult | src/tick/times.py:19-41 | no contract of its own: the loop shape "one value per element, stop at the first raise"; MapResultOk and MapResultFirstError give its meaning |
| Traverse.MapResultStep | src/tick/times.py:37-41 | one more element appends its value, or ends the loop with its error |
| Traverse.MapResultErrSticks | src/tick/times.py:37-41 | an error raised for a prefix is the loop's error |
| Traverse.MapResultOk | src/tick/times.py:37-41 | the loop returns exactly when every step does, with one value per element in order |
| Traverse.MapResultFirstError | src/tick/times.py:37-41 | a loop that raises reports its first failing step's error, and every earlier step succeeded |
| Clock.Timeline | src/tick/times.py:32-39 | no contract of its own: the reference position of an instant, in minutes since 0001-01-01 00:00; ShiftTimeline, TimelineInjective and UtcInstantTimeline are stated against it |
| Clock.Label | src/tick/times.py:34-40 | no contract of its own: `strftime("%-I:%M %p")`; LabelRoundTrip and LabelCanonical tie it to the independent reader ParseLabel, LabelInjective follows, and the scenario lemmas pin the test strings |
| Clock.Shift | src/tick/times.py:39 | converting to a fixed-offset zone gives a well-formed date and minute of day |
| Clock.ShiftTimeline | src/tick/times.py:39 | the conversion moves the instant exactly `delta` minutes along the time line, so the date carries both ways |
| Clock.TimelineInjective | src/tick/times.py:39 | two well-formed instants at the same point of the time line are equal |
| Clock.ShiftShift | src/tick/times.py:39 | shifting by a and then by b is shifting by a + b |
| Clock.Hour12 | src/tick/times.py:34 | `%I` gives 1 .. 12 and agrees with the 24-hour value modulo 12 |
| Clock.DigitValue | src/tick/times.py:34 | reading a digit character is the inverse of writing it |
| Clock.ParseHour12 | src/tick/times.py:34 | a `%-I` hour reads back as 1 .. 12 |
| Clock.ParseLabel | src/tick/times.py:34 | a label reads back as a minute of day in 0 .. 1439 |
| Clock.HourTextRoundTrip | src/tick/times.py:34 | `%-I` with no leading zero reads back as the hour it printed |
| Clock.LabelRoundTrip | src/tick/times.py:34 | every `"%-I:%M %p"` label reads back as the minute of day it was printed from |
| Clock.LabelCanonical | src/tick/times.py:34 | a text that reads as minute m is exactly m's label |
| Clock.LabelInjective | src/tick/times.py:34 | different minutes of the day print different labels |
| Calendar.ToOrdinal | src/tick/times.py:32 | no contract of its own: `date.toordinal()`, the reference day numbering; AddDaysOrdinal, AddDaysUnique, OrdinalInjective and InRangeOrdinal relate the date operations to it |
| Calendar.DaysInMonth | src/tick/times.py:32 | months have 28 to 31 days, and February has 29 exactly in leap years |
| Calendar.NextDay | src/tick/times.py:32 | the next day of a well-formed date is well formed |
| Calendar.PrevDay | src/tick/times.py:32 | the previous day is well formed, and the next day of it is the original date |
| Calendar.PrevOfNext | src/tick/times.py:32 | stepping forward one day and back again is the identity |
| Calendar.AddDays | src/tick/times.py:32 | `date + timedelta(days = n)` is a well-formed date, for n of either sign |
| Calendar.LeapDayCount | src/tick/times.py:32 | the Gregorian count of +1 every 4th year, -1 every 100th year and +1 every 400th year is 1 exactly in leap years |
| Calendar.DaysBeforeNextYear | src/tick/times.py:32 | the day count before year y + 1 is the count before y plus y's length |
| Calendar.NextDayOrdinal | src/tick/times.py:32 | the next day has day number one larger, across month and year ends |
| Calendar.AddDaysOrdinal | src/tick/times.py:32 | adding n days adds exactly n to the day number |
| Calendar.AddDaysAdd | src/tick/times.py:32 | advancing by a days and then by b days is advancing by a + b days |
| Calendar.OrdinalInjective | src/tick/times.py:32 | distinct well-formed dates have distinct day numbers |
| Calendar.AddDaysUnique | src/tick/times.py:32 | `d + n days` is the one well-formed date whose day number is n larger than d's |
| Calendar.InRangeOrdinal | src/tick/times.py:22-32 | a date can be stored (years 1 .. 9999) exactly when its day number lies in 1 .. 3652059 |
| TimesScenarios.LabelTwelves | src/tick/times.py:34 | hours 0 and 12 print as "12:00 AM" and "12:00 PM" |
| TimesScenarios.LabelSevenPm | tests/test_times.py:18 | hour 19 prints as "7:00 PM" |
| TimesScenarios.LabelTenPm | tests/test_times.py:37 | hour 22 prints as "10:00 PM" |
| TimesScenarios.RolloverExamples | src/tick/times.py:29-32 | day advance rolls over month ends, February in leap and common years, and year ends, forwards and back |
| TimesScenarios.TokyoNextDay | tests/test_times.py:21 | UTC 19:00 on 7 Feb 2026 at +9 hours is 04:00 on 8 Feb |
| TimesScenarios.KnownConversions | tests/test_times.py:6-21 | one row from UTC 19:00 on 7 Feb 2026 is ["7:00 PM", "2:00 PM", "7:00 PM", "4:00 AM"] for Detroit, London and Tokyo |
| TimesScenarios.TwelveRows | tests/test_times.py:24-27 | twelve hours from 10:00 UTC give a grid of twelve rows |
| TimesScenarios.PastMidnightInstants | tests/test_times.py:30-38 | the six instants from 22:00 UTC are two on 7 Feb, then four on 8 Feb |
| TimesScenarios.WrapsPastMidnight | tests/test_times.py:30-38 | six hours from 22:00 UTC give six rows from "10:00 PM" to "3:00 AM", the last one dated 8 Feb |

## Left out

- Timezone rules: `ZoneInfo` and `astimezone` become a fixed offset in minutes per IANA key, taken from the `tzdb` parameter. Daylight saving time, historical offset changes and offsets with a seconds part are not modelled.
- A key that `ZoneInfo` rejects as malformed raises `ValueError`, not `ZoneInfoNotFoundError`; the model reports every key missing from `tzdb` as `ZoneNotFound`.
- A locale dictionary without an `"iana_tz"` entry raises `KeyError`; a `Locale` always has the field.
- The `start_hour is None` default reads the current UTC hour from the system clock; the model takes `startHour` as an input.
- `%p` prints "AM"/"PM" as in the C locale; other locales' spellings are not modelled.
- Seconds and microseconds: every instant the function builds falls on a whole minute, so instants keep minutes only.
- `timedelta(days = day_offset)` overflows when the carry exceeds 999999999 days. Any carry that large already takes the date outside years 1 to 9999, so the model reports it as the same `Overflow`.
- src/tick/app.py (the Textual user interface), src/tick/geo.py (network geocoding) and src/tick/llm.py (the chat client) are I/O and are not part of this model. The locale commands asserted in tests/test_app.py have no implementing source, so they are not modelled either.
