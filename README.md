# Attendance ledger — a Dafny model

This project models the logic at the centre of a volunteer-attendance web application. The
application keeps an **attendance ledger**: a table of records, each with an id, an optional
user, a check-in instant, an optional check-out instant and an optional total. A **card
directory** maps RFID card names to an optional owner. On top of these sit:

- the RFID scan toggle (`POST /api/attendance_record`): check in when the owner has no open
  record, otherwise close the first open one. Its listing (`GET`) returns one page of the
  filtered records, newest first, together with the filtered total;
- the statistics route (`GET /api/attendance_stats`): 24 hour buckets for today, 7 weekday
  buckets for the ISO week and 4 or 5 week-of-month buckets for the month;
- the dashboard summary, and the month debugging route (distinct users per week, a sample of
  at most ten rows);
- the older `Registro` entry/exit ledger (`POST` refuses a second open entry for the same user
  and date; `PUT` closes every open entry);
- the browser and edge helpers: the records table's filter, page arithmetic and interval
  formatting; the schedule form's per-day time map; the sidebar's active-route test; the
  Bearer-token middleware; the volunteer form's field rules.

Each source file is one module. `Base` holds the calendar projections and the counting helpers.
`Text` holds the JavaScript string operations the code relies on: `split`, `join`,
`toLowerCase`, `trim`, `startsWith`, `includes`, `parseInt` and number-to-text. It also holds
SQL `LIKE` with its `%`, `_` and `\` wildcards. `Ledger` holds
the shared tables.

The modelling choices:

- Instants are integer seconds.
- Time-zone projections are functions given to the model in a `Calendar` value: local day,
  hour 0-23, month and day-of-month. ISO weekdays are computed from the day number.
- Database failures are a `Backend` parameter: `Up`, or `Down(message)`.
- Code that changes state step by step is written as classes and methods. These are the scan
  handler, the registrations handlers, the records table's page state, and the schedule form's
  toggle with its two `forEach` loops. Each method's `ensures` ties its new state to a
  specification function. The properties are proved as lemmas about that function.
- Code that only computes is written as functions and lemmas.

The model follows the code where the two could be read differently:

- A card whose `id_user` is NULL is not rejected. The open-record lookup `id_user = NULL`
  matches no row, so every scan of such a card inserts another open record with a NULL user
  (`AttendanceScan.UnassignedCardAlwaysChecksIn`).
- The name search is bound as `%search%` without escaping, so `%`, `_` and `\` typed into the
  search keep their `LIKE` meaning: searching `a_b` also lists `axb`
  (`AttendanceQuery.UnderscoreSearchOverMatches`). A search without those characters is plain
  containment (`AttendanceQuery.PlainSearchIsContainment`).
- A registrations body without `id_usuario` binds NULL. The open-entry lookup then finds
  nothing, so every such `POST` inserts another row and every such `PUT` answers 404
  (`Registrations.MissingUserAlwaysInserts`, `Registrations.MissingUserPutIsNotFound`).
- The registrations `PUT` leaves `horas_totales` NULL. Its `SET` clause reads the old,
  NULL `hora_salida`.
- The summary's present figure counts records, not people. `DashboardSummary.PresentCountsPeople`
  shows the two agree while each user has at most one open record.
- The month chart counts raw rows. The week chart and the debug route count distinct users.

## Model

| member | source | states |
|---|---|---|
| Base.StartOfWeek | src/app/api/attendance_stats/route.ts:96 | `date_trunc('week', …)`: the week start lies on or before the day and less than seven days before it |
| Base.WeekdayInWeek | src/app/api/attendance_stats/route.ts:104-105 | the k-th day after the week start is ISO weekday k+1: the start is a Monday and the window runs Monday to Sunday |
| AttendanceScan.FirstOpen | src/app/api/attendance_record/route.ts:97-103 | finds the first open record of the owner, every earlier record is not an open one of the owner's, and `None` exactly when the owner has no open record |
| AttendanceScan.Scan | src/app/api/attendance_record/route.ts:76-148 | 400 exactly for a missing or empty `rfid`, 500 for a failing database, 404 for an unknown card, and each of these leaves the table unchanged; a check-in appends one record under the next id; a check-out keeps the table's length and next id |
| AttendanceScan.AttendanceLedger.constructor | src/app/api/attendance_record/route.ts:76 | an empty ledger whose next id is 1, satisfying the ledger invariant |
| AttendanceScan.AttendanceLedger.HandleScan | src/app/api/attendance_record/route.ts:76-148 | the new table and the outcome are those of `Scan` on the old table; the invariant (at most one open record per user, ids below the next id, totals stamped on closed records) is kept |
| AttendanceScan.ScanPreservesInv | src/app/api/attendance_record/route.ts:97-139 | every scan outcome, including the errors, keeps at most one open record per user, distinct ids below the next id, and totals equal to check-out minus check-in on closed records |
| AttendanceScan.MissingRfidIsRejected | src/app/api/attendance_record/route.ts:77-81 | a missing or empty `rfid` answers 400 and leaves the ledger unchanged, whatever the database state |
| AttendanceScan.UnknownCardIsNotFound | src/app/api/attendance_record/route.ts:85-92 | a card name with no `Card` row answers 404 and leaves the ledger unchanged |
| AttendanceScan.CheckInAppendsOne | src/app/api/attendance_record/route.ts:97-118 | with no open record for the owner, exactly one record is appended: fresh id, the card's owner, check-in now, no check-out, no total; answer 201 |
| AttendanceScan.CheckOutClosesFirstOpen | src/app/api/attendance_record/route.ts:119-139 | with open records, only the first is changed: check-out now, total now minus check-in; nothing added, every other row unchanged; answer 200 |
| AttendanceScan.ToggleLaw | src/app/api/attendance_record/route.ts:97-139 | three scans of an assigned card: check-in, then check-out of that same record with the elapsed time, then check-in under a new id; the invariant holds after all three |
| AttendanceScan.UnassignedCardAlwaysChecksIn | src/app/api/attendance_record/route.ts:94-111 | a card with a NULL owner always appends a new open record with a NULL user |
| AttendanceQuery.PageParam | src/app/api/attendance_record/route.ts:8 | the page is at least 1: the given page when it is at least 1, otherwise 1 |
| AttendanceQuery.PageSizeParam | src/app/api/attendance_record/route.ts:9 | the page size is clamped into 1..100 and is 10 when absent |
| AttendanceQuery.Offset | src/app/api/attendance_record/route.ts:49 | the offset is (page − 1) · pageSize: adding one page size gives page · pageSize |
| AttendanceQuery.BuildWhere | src/app/api/attendance_record/route.ts:15-34 | the placeholders are `$1..$k` in push order, one per parameter, and the conditions hold of a row exactly when the row matches the filter, with the search read as a `LIKE` pattern |
| AttendanceQuery.PushNumbered | src/app/api/attendance_record/route.ts:18-34 | pushing a condition numbered `$n+1`, or the parameterless present test, keeps the numbering consecutive |
| AttendanceQuery.ExpectedMeaning | src/app/api/attendance_record/route.ts:18-34 | the pushed conditions, evaluated with the pushed parameters, say: the lower-cased name is `LIKE '%search%'`, check-in day within from..to, no check-out when only present rows are asked for |
| AttendanceQuery.Matches | src/app/api/attendance_record/route.ts:15-34 | the filter's meaning on a row: with no search, no dates and no present flag every row passes; with the present flag only rows without check-out pass |
| AttendanceQuery.PlainSearchIsContainment | src/app/api/attendance_record/route.ts:18-20 | for a search free of `%`, `_` and `\`, the name test is plain containment in the lower-cased name |
| AttendanceQuery.UnderscoreSearchOverMatches | src/app/api/attendance_record/route.ts:18-20 | the search is not escaped: `a_b` selects a user named `axb`, whose name does not contain `a_b` |
| Text.LikeInfixIsContains | src/app/api/attendance_record/route.ts:18-20 | `s LIKE '%q%'` holds exactly when `s` contains `q`, for `q` without special characters |
| Text.UnderscoreMatchesAnyChar | src/app/api/attendance_record/route.ts:18-20 | `'axb' LIKE '%a_b%'` holds although `axb` does not contain `a_b` |
| AttendanceQuery.Join | src/app/api/attendance_record/route.ts:50-53 | the inner join with `Users` yields at most one row per record, and a row is in the result exactly when some record has an owner with a `Users` row and the row carries that record's fields and the owner's name |
| AttendanceQuery.Filtered | src/app/api/attendance_record/route.ts:39-46 | exactly the rows that match the filter (`LIKE` on the name), each from the input, none repeated beyond the input |
| AttendanceQuery.InsertNewestFirst | src/app/api/attendance_record/route.ts:55 | inserting into a newest-first list keeps it newest-first and adds exactly that row |
| AttendanceQuery.SortNewestFirst | src/app/api/attendance_record/route.ts:55 | `ORDER BY check_in_time DESC`: newest first and a permutation of the input |
| AttendanceQuery.OffsetLimit | src/app/api/attendance_record/route.ts:56 | `OFFSET … LIMIT …`: the slice from the offset, at most the limit long, empty past the end |
| AttendanceQuery.PageRows | src/app/api/attendance_record/route.ts:49-58 | one page holds at most the page size of rows, newest first, all from the selected set; when the offset is inside the set it is exactly the `min(pageSize, total - offset)` rows of the newest-first order starting at the offset, and past the end it is empty |
| AttendanceQuery.Selected | src/app/api/attendance_record/route.ts:39-46 | a row is selected exactly when it is a joined record that matches the request's filter, the search being a `LIKE` pattern |
| AttendanceQuery.FilterOf | src/app/api/attendance_record/route.ts:10-13 | the date bounds pass through; an absent or all-white-space search is no search, and any other search neither starts nor ends with white space; an absent present flag means all rows |
| AttendanceQuery.PresentFlagIgnoresCase | src/app/api/attendance_record/route.ts:13 | the present flag reads the same whatever the letter case of its text |
| AttendanceQuery.Get | src/app/api/attendance_record/route.ts:5-73 | on failure 500; otherwise the clamped page and size, the total of the same filtered set, that set's page newest first, and offset and limit bound as `$k+1` and `$k+2` after consecutive filter placeholders |
| AttendanceStats.CountGroups | src/app/api/attendance_stats/route.ts:22-29 | `GROUP BY … COUNT(*)`: ascending keys in range, each with its positive record count |
| AttendanceStats.CountGroupsComplete | src/app/api/attendance_stats/route.ts:22-29 | every key in range with records appears in the grouped rows with its count |
| AttendanceStats.HourKey | src/app/api/attendance_stats/route.ts:46-47 | the label of hour h is the two-digit hour followed by `:00` |
| AttendanceStats.HourKeyInjective | src/app/api/attendance_stats/route.ts:44-48 | different hours get different labels |
| AttendanceStats.HourKeysAscending | src/app/api/attendance_stats/route.ts:62-64 | the labels of earlier hours sort first |
| AttendanceStats.LexLessAsymmetric | src/app/api/attendance_stats/route.ts:63 | the label order never puts two labels each before the other |
| AttendanceStats.MapSet | src/app/api/attendance_stats/route.ts:52 | `Map.set`: the key now maps to the value, every other key keeps its value, existing entries keep their insertion position, and the size grows only for a new key |
| AttendanceStats.PutFacts | src/app/api/attendance_stats/route.ts:56-58 | the same facts for the update-or-insert of a check-out tally |
| AttendanceStats.SeedHours | src/app/api/attendance_stats/route.ts:44-48 | the seeded map holds exactly the 24 labels `00:00`..`23:00` in order, each with zero tallies |
| AttendanceStats.SetEntradas | src/app/api/attendance_stats/route.ts:50-53 | after the check-in rows, every label holds its check-in count and zero check-outs; labels outside the seed are added |
| AttendanceStats.SetSalidas | src/app/api/attendance_stats/route.ts:54-59 | after the check-out rows, every label holds its check-out count and keeps its check-in count |
| AttendanceStats.MergeHours | src/app/api/attendance_stats/route.ts:42-59 | the merged map holds the seeded labels plus any returned ones, each with its check-in and check-out counts |
| AttendanceStats.LastCountOfGroups | src/app/api/attendance_stats/route.ts:22-40 | the count stored under an hour label is the number of events in that hour |
| AttendanceStats.MergedToday | src/app/api/attendance_stats/route.ts:42-59 | today's merged map is exactly the 24 hours in order, each with that hour's check-ins and check-outs |
| AttendanceStats.SortByKey | src/app/api/attendance_stats/route.ts:62-63 | sorting by label is a permutation of the entries |
| AttendanceStats.SortSortedIsIdentity | src/app/api/attendance_stats/route.ts:62-64 | entries already in label order are left as they are |
| AttendanceStats.Buckets | src/app/api/attendance_stats/route.ts:64 | one chart bar per map entry, with its label and both counts |
| AttendanceStats.SumEntradasCounts | src/app/api/attendance_stats/route.ts:66 | summing bars that hold per-key counts gives the count over the whole key range |
| AttendanceStats.TodayHoursPartition | src/app/api/attendance_stats/route.ts:66 | the sum of the hourly check-ins is the number of records checked in today |
| AttendanceStats.Today | src/app/api/attendance_stats/route.ts:20-92 | 24 bars, one per hour, with that hour's check-ins and check-outs; attendances are today's check-ins; absences are all users minus that, possibly negative; hours and overtime as in the hours query |
| AttendanceStats.OvertimeWithinHours | src/app/api/attendance_stats/route.ts:69-77 | overtime is never negative and never exceeds the hours worked today |
| AttendanceStats.NoOvertimeUnderEightHours | src/app/api/attendance_stats/route.ts:74 | with no session longer than eight hours there is no overtime |
| AttendanceStats.FillMap | src/app/api/attendance_stats/route.ts:119-131 | the `forEach` fill: the map's keys are the rows' labels, each with the count of the last row carrying it |
| AttendanceStats.GetOr0OfFill | src/app/api/attendance_stats/route.ts:138-139 | `get(…) \|\| 0` on the filled map is the row's count, or 0 for a missing label |
| AttendanceStats.LastCountOfWeek | src/app/api/attendance_stats/route.ts:100-117 | the week query's row for a weekday carries the number of distinct users with an event on that day, or is absent when there is none |
| AttendanceStats.WeekDayNameKey | src/app/api/attendance_stats/route.ts:133-138 | capitalising a weekday name and lower-casing it again gives back the map key |
| AttendanceStats.WeekMapLookup | src/app/api/attendance_stats/route.ts:119-139 | the lookup for the k-th weekday yields the distinct users with an event on that day |
| AttendanceStats.WeekBars | src/app/api/attendance_stats/route.ts:133-141 | seven bars in the fixed Monday-to-Sunday order, each read from the two maps |
| AttendanceStats.WeekBarsCounts | src/app/api/attendance_stats/route.ts:100-141 | each weekday's bar counts the distinct users checking in and out on that day of the current week |
| AttendanceStats.Week | src/app/api/attendance_stats/route.ts:94-157 | seven bars, one per day of the current ISO week, with distinct users in and out; the totals are the sums of the bars |
| AttendanceStats.WeekNo | src/app/api/attendance_stats/route.ts:162-168 | the week number is always between 1 and 5 |
| AttendanceStats.WeekNoIsCeiling | src/app/api/attendance_stats/route.ts:162-168 | the 7/14/21/28 thresholds give the day number divided by seven and rounded up, capped at 5 |
| AttendanceStats.MaxOf | src/app/api/attendance_stats/route.ts:205 | `Math.max` of a non-empty list is one of its elements and no smaller than any |
| AttendanceStats.LastCountOfCountGroups | src/app/api/attendance_stats/route.ts:193-197 | after the fill, each week number in range holds its record count and any other holds nothing |
| AttendanceStats.MonthMapLookup | src/app/api/attendance_stats/route.ts:193-212 | the lookup for week w yields the month's record count for week w |
| AttendanceStats.MonthPartition | src/app/api/attendance_stats/route.ts:160-191 | every event of the month falls into exactly one of weeks 1 to 5, so the week counts add up to the month's count |
| AttendanceStats.WeeksInMonthRange | src/app/api/attendance_stats/route.ts:199-206 | `max(highest week present, 4)` is 5 when week 5 occurs in either result and 4 otherwise |
| AttendanceStats.FifthWeekRow | src/app/api/attendance_stats/route.ts:160-191 | a week-5 row is returned exactly when some event of the month falls after day 28 |
| AttendanceStats.WeeksInMonthCount | src/app/api/attendance_stats/route.ts:199-206 | the chart has five weeks exactly when some check-in or check-out of the month falls after day 28, otherwise four |
| AttendanceStats.MonthBars | src/app/api/attendance_stats/route.ts:208-215 | one bar per week, labelled `Semana k`, read from the two maps with 0 for absent weeks |
| AttendanceStats.MonthBarsCounts | src/app/api/attendance_stats/route.ts:208-215 | bar k holds the month's check-ins and check-outs in week k |
| AttendanceStats.MonthChartTotals | src/app/api/attendance_stats/route.ts:217-218 | the sums of the bars are the month's total check-ins and check-outs, since a four-week chart leaves out only an empty week 5 |
| AttendanceStats.Month | src/app/api/attendance_stats/route.ts:159-230 | four or five week bars (five exactly when week 5 is used), each with that week's raw row counts; the totals are the month's totals |
| AttendanceStats.Period | src/app/api/attendance_stats/route.ts:14 | a missing or empty parameter means `today`; otherwise the parameter lower-cased character by character |
| AttendanceStats.PeriodIgnoresCase | src/app/api/attendance_stats/route.ts:14 | the period does not depend on the letter case of the parameter |
| AttendanceStats.Stats | src/app/api/attendance_stats/route.ts:13-235 | on failure 500 with no chart; `today` and `week` select their views and any other value the month view, each with the contents stated for that view |
| DashboardSummary.Summarize | src/app/api/dashboard/summary/route.ts:4-43 | 500 exactly on failure; otherwise all users, the open records checked in today (no more than today's check-ins), the same hours as the statistics route, and the cards with no owner (no more than all cards) |
| DashboardSummary.CardsPartition | src/app/api/dashboard/summary/route.ts:28 | unassigned and assigned cards together are all the cards |
| DashboardSummary.PresentCountsPeople | src/app/api/dashboard/summary/route.ts:10-15 | when each user has at most one open record, the present count equals the number of distinct present users |
| DashboardSummary.OpenTodayIsPresent | src/app/api/dashboard/summary/route.ts:10-15 | any open record checked in today makes the present count positive |
| DebugMonth.DistinctRows | src/app/api/debug-month/route.ts:7-21 | ascending week numbers in range, each with events, each with its number of distinct users |
| DebugMonth.DistinctRowsComplete | src/app/api/debug-month/route.ts:7-21 | every week of the month with events appears with its distinct-user count |
| DebugMonth.WeekRecordCount | src/app/api/debug-month/route.ts:18 | the debug route's week filter selects the same records as the statistics route's month count |
| DebugMonth.DistinctAtMostRaw | src/app/api/debug-month/route.ts:16 | the distinct users of a week are never more than its records |
| DebugMonth.OneUserCountsOnce | src/app/api/debug-month/route.ts:16 | a week whose records all belong to one user counts 1, however many records it has |
| DebugMonth.Sample | src/app/api/debug-month/route.ts:41-58 | `LIMIT 10`: ten rows, or all of the month's check-ins when fewer; each row comes from a record of the month and its week agrees with its day by the threshold rule |
| DebugMonth.CurrentMonth | src/app/api/debug-month/route.ts:64 | the first seven characters of the timestamp, or the whole of a shorter one |
| DebugMonth.DistinctRowsBounded | src/app/api/debug-month/route.ts:23-38 | each bucket's distinct count is at most that week's raw record count |
| DebugMonth.Debug | src/app/api/debug-month/route.ts:4-70 | on failure 500 carrying the message; otherwise both week lists hold exactly the weeks 1..5 with events, ascending, each with its distinct users (never more than its raw count); the sample has min(10, the month's check-ins) rows, each from the month with its week by the threshold rule; the month is the timestamp's first seven characters |
| DebugMonth.DistinctRowsOfMonth | src/app/api/debug-month/route.ts:7-38 | the query over weeks 1..5 returns one ascending row per week with events, each counting its distinct users |
| Registrations.Stamp | src/app/api/registrations/route.ts:20-21 | the date has no `T` in it and the time has neither `T` nor `.`: the pieces before `T` and between `T` and `.` |
| Registrations.StampOfIso | src/app/api/registrations/route.ts:20-21 | on an ISO timestamp the stamp gives back its date and its `HH:MM:SS` |
| Registrations.Post | src/app/api/registrations/route.ts:16-42 | 500 exactly for a malformed stamp or a failing database, 400 exactly when the user has an open entry on the date, and both leave the table unchanged; a 201 appends one row with the fresh id and the body's user |
| Registrations.CloseOne | src/app/api/registrations/route.ts:52-55 | an open row of the user on the date gets the exit time and a NULL total; any other row is unchanged; the result is never open for that user and date |
| Registrations.Put | src/app/api/registrations/route.ts:45-65 | the table keeps its length; 500 for a malformed stamp or a failing database, 404 exactly when no entry is open, and both change nothing; after a 200 no entry of the user is open on the date |
| Registrations.MissingUserAlwaysInserts | src/app/api/registrations/route.ts:18-38 | with no `id_usuario`, every `POST` inserts a row with a NULL user, and the next one does again |
| Registrations.MissingUserPutIsNotFound | src/app/api/registrations/route.ts:47-59 | with no `id_usuario`, `PUT` answers 404 and changes nothing |
| Registrations.FirstOpenOn | src/app/api/registrations/route.ts:24-27 | the first open row of the user on the date; `None` exactly when there is none |
| Registrations.CloseAll | src/app/api/registrations/route.ts:52-55 | the `UPDATE` acts row by row and keeps the table's length |
| Registrations.RegistroTable.constructor | src/app/api/registrations/route.ts:16 | an empty table, which satisfies the one-open-entry-per-day invariant |
| Registrations.RegistroTable.HandlePost | src/app/api/registrations/route.ts:16-42 | the new table and outcome are those of `Post`; the status is 201, 400 or 500 accordingly; the invariant is kept |
| Registrations.RegistroTable.HandlePut | src/app/api/registrations/route.ts:45-65 | the loop's result equals `Put`: every open row of the user today is closed; the status is 200, 404 or 500; the invariant is kept |
| Registrations.PostKeepsOnePerDay | src/app/api/registrations/route.ts:24-38 | sequential entries keep at most one open row per user and date |
| Registrations.PutKeepsOnePerDay | src/app/api/registrations/route.ts:52-55 | an exit keeps at most one open row per user and date |
| Registrations.PostRefusesSecondEntry | src/app/api/registrations/route.ts:24-31 | with an open row for the user today, the entry is refused with 400 and nothing is inserted |
| Registrations.PostInsertsOne | src/app/api/registrations/route.ts:33-38 | otherwise exactly one row is appended, with the given fresh id, the user, the date and time of the stamp and no exit; answer 201 |
| Registrations.RepeatedPostIsRefused | src/app/api/registrations/route.ts:24-38 | a second entry by the same (non-NULL) user on the same date is refused |
| Registrations.PutClosesAll | src/app/api/registrations/route.ts:52-55 | every open row of the user today gets the exit time and a NULL total, no such row stays open, and every other row is unchanged |
| Registrations.PutWithoutEntryIsNotFound | src/app/api/registrations/route.ts:57-59 | with no open row of the user today, 404 and nothing changes |
| RecordsTable.MatchesSearch | src/components/attendance-records-table.tsx:148 | the empty term matches every row; a matching term is no longer than the name |
| RecordsTable.MatchesDate | src/components/attendance-records-table.tsx:150-165 | no range, or one without `from`, keeps every row; a kept row is not before `from`'s day; with `from` alone exactly the rows of that day are kept |
| RecordsTable.Filtered | src/components/attendance-records-table.tsx:147-168 | a row is kept exactly when its name contains the search, ignoring case, and its check-in day passes the date range |
| RecordsTable.NoFilterKeepsAll | src/components/attendance-records-table.tsx:148-151 | an empty search and no range keep every row, in order |
| RecordsTable.SearchIgnoresCase | src/components/attendance-records-table.tsx:148 | lower-casing the search term changes no verdict |
| RecordsTable.SameDayRange | src/components/attendance-records-table.tsx:158-164 | a range with only `from` keeps the same rows as a range whose `from` and `to` fall on that one day |
| RecordsTable.TotalPages | src/components/attendance-records-table.tsx:172 | at least one page, enough pages for every row, and the last page is non-empty unless it is the only one |
| RecordsTable.CurrentPage | src/components/attendance-records-table.tsx:173 | the shown page lies in 1..total pages and is the selected page when that is in range |
| RecordsTable.Slice | src/components/attendance-records-table.tsx:176 | `slice` never yields more than the requested span |
| RecordsTable.PageRows | src/components/attendance-records-table.tsx:174-176 | a page holds at most page-size rows |
| RecordsTable.PagesArePrefix | src/components/attendance-records-table.tsx:174-176 | the first k pages concatenated are the first k·pageSize rows |
| RecordsTable.PagesCoverAll | src/components/attendance-records-table.tsx:172-176 | the pages 1..total pages concatenate back to the filtered list |
| RecordsTable.FullPagesBeforeLast | src/components/attendance-records-table.tsx:172-176 | every page before the last is full |
| RecordsTable.RecordsView.Shown | src/components/attendance-records-table.tsx:172-176 | the rows shown are at most one page, each a row of the list that passes the search and date filters, and some row is shown whenever any passes them, because the page is clamped to the last one |
| RecordsTable.RecordsView.constructor | src/components/attendance-records-table.tsx:143 | no search, no range and page 1 at first |
| RecordsTable.RecordsView.SetSearch | src/components/attendance-records-table.tsx:170 | a new term goes back to page 1; the same term keeps the page |
| RecordsTable.RecordsView.SetRange | src/components/attendance-records-table.tsx:170 | any range change goes back to page 1 |
| RecordsTable.RecordsView.Prev | src/components/attendance-records-table.tsx:349 | the page steps back but never below 1 |
| RecordsTable.RecordsView.Next | src/components/attendance-records-table.tsx:357 | the page steps forward but never past the last page |
| RecordsTable.RecordsView.GoTo | src/components/attendance-records-table.tsx:352-353 | a numbered button selects its page |
| RecordsTable.NextThenPrev | src/components/attendance-records-table.tsx:349-357 | on a view before the last page, pressing next then previous comes back to the same page with the filters unchanged |
| RecordsTable.FormatInterval | src/components/attendance-records-table.tsx:189-204 | NULL or empty gives `-`; anything not of three `:`-parts is returned unchanged |
| RecordsTable.FormatHhMmSs | src/components/attendance-records-table.tsx:189-204 | on `HH:MM:SS`: under an hour `<m> min`, otherwise `<h>h <m>m`, or `<h>h ` when the minutes are zero |
| RecordsTable.FormatThreeParts | src/components/attendance-records-table.tsx:193-203 | on three parts whose first two parse as h and m, the result is decided by h and m alone |
| RecordsTable.SplitHhMmSs | src/components/attendance-records-table.tsx:193 | splitting `HH:MM:SS` on `:` gives its three two-digit fields |
| RecordsTable.ParsePad2 | src/components/attendance-records-table.tsx:196-197 | `parseInt` of a two-digit field gives back its value |
| ScheduleForm.Toggled | src/components/schedule-form.tsx:38-57 | after a toggle the map's keys are exactly the selected days |
| ScheduleForm.ToggledIdempotent | src/components/schedule-form.tsx:38-57 | toggling the same selection again changes nothing |
| ScheduleForm.ToggledEntries | src/components/schedule-form.tsx:43-54 | a day kept keeps its times, a day added gets 09:00-12:00, a day dropped loses its entry |
| ScheduleForm.TimeChanged | src/components/schedule-form.tsx:59-67 | only the chosen field of the chosen day changes; every other day and the other field are unchanged |
| ScheduleForm.TimeSurvivesToggle | src/components/schedule-form.tsx:38-67 | a time set on a day survives a toggle that keeps the day selected |
| ScheduleForm.ScheduleRows | src/components/schedule-form.tsx:72-79 | one row per selected day in selection order, with the parsed weekday, that day's times and the same user and dates |
| ScheduleForm.DayValueParses | src/components/schedule-form.tsx:21-29 | each offered toggle value parses to its weekday number 1..7 |
| ScheduleForm.RowsHaveWeekdays | src/components/schedule-form.tsx:74 | with offered values only, every row's `day_of_week` is in 1..7 |
| ScheduleForm.SubmitSendsRows | src/components/schedule-form.tsx:214 | the submit button is enabled exactly when submitting would send at least one schedule row |
| ScheduleForm.EndDateChoices | src/components/schedule-form.tsx:145 | an end date is selectable exactly when a start date exists and the date is not before it |
| ScheduleForm.AddDefaults | src/components/schedule-form.tsx:43-47 | the first loop adds the defaults for each selected day without times and changes no existing entry |
| ScheduleForm.DropUnselected | src/components/schedule-form.tsx:50-54 | the second loop deletes exactly the keys not selected and keeps the rest as they were |
| ScheduleForm.Form.constructor | src/components/schedule-form.tsx:33-36 | no day selected and no times |
| ScheduleForm.Form.DayToggle | src/components/schedule-form.tsx:38-57 | the copy-add-delete sequence leaves exactly `Toggled` of the old map; the selection becomes the new values and the dates are untouched |
| ScheduleForm.Form.TimeChange | src/components/schedule-form.tsx:59-67 | the map becomes `TimeChanged` of the old one; the selection, the start and end dates and the invariant are kept |
| NavMain.SegmentCount | src/components/nav-main.tsx:46 | the segments are at most the `/`-pieces, and the empty url has none |
| NavMain.IsActivePath | src/components/nav-main.tsx:45-52 | a link is active on its own path, and only on paths that start with its url |
| NavMain.SubActive | src/components/nav-main.tsx:53 | an active group has at least one sub-item; a group is active on the path of any of its sub-items |
| NavMain.SegmentsOfJoin | src/components/nav-main.tsx:46 | the segment count of a `/`-joined path is its number of non-empty names |
| NavMain.OneSegment | src/components/nav-main.tsx:46 | `/name` has one segment |
| NavMain.TwoSegments | src/components/nav-main.tsx:46 | `/a/b` has two segments |
| NavMain.TopLevelExactOnly | src/components/nav-main.tsx:47-49 | a one-segment url is active exactly on its own path |
| NavMain.DashboardIsExact | src/components/nav-main.tsx:47-49 | `/dashboard` is not active on `/dashboard/volunteers` |
| NavMain.NestedCoversChildren | src/components/nav-main.tsx:51 | a url of two or more segments is active on every path below it |
| NavMain.NestedExcludesSiblings | src/components/nav-main.tsx:51 | such a url is not active on a path that only extends its last segment |
| NavMain.HorariosSiblingInactive | src/components/nav-main.tsx:51 | `/dashboard/horarios` is not active on `/dashboard/horariosX` |
| NavMain.HorariosChildActive | src/components/nav-main.tsx:51 | `/dashboard/horarios` is active on every `/dashboard/horarios/…` path |
| NavMain.SubActiveSnoc | src/components/nav-main.tsx:53 | a group is active exactly when one of its sub-items is; a group with no sub-items never is |
| Middleware.Decide | src/middleware.ts:10-33 | an unprotected path passes with no `user` header; 401 exactly on a protected path without a `Bearer ` header; a `user` header or a 403 only after a `Bearer ` header |
| Middleware.Handle | src/middleware.ts:10-38 | inside the `/api/` matcher the decision is `middleware`'s; anything but a plain pass needs a matched, protected path |
| Middleware.BearerToken | src/middleware.ts:24 | the second space-separated piece of `Bearer <rest>` is the part of `rest` before its next space |
| Middleware.UnprotectedPasses | src/middleware.ts:14-16 | a path under neither protected prefix passes unchanged, with no `user` header |
| Middleware.MissingBearerIsUnauthorized | src/middleware.ts:19-22 | on a protected path, a missing header or one without `Bearer ` gets 401 |
| Middleware.TokenDecides | src/middleware.ts:24-32 | with a Bearer header, a token that verifies passes with the payload's JSON as `user`; one that does not gets 403 |
| Middleware.PrefixIsTextual | src/middleware.ts:14 | the prefix test is textual: `/api/volunteersX` is protected too |
| Middleware.MatcherChangesNothing | src/middleware.ts:36-38 | the `/api/` matcher covers both protected prefixes, so it changes no decision |
| UserSchema.IdUserIssues | src/types/user.ts:9 | an optional `id_user`, when present, must be a string and a UUID; its issues belong to that field |
| UserSchema.NameIssues | src/types/user.ts:10-12 | a missing name or one shorter than 2 is reported against the name |
| UserSchema.EmailIssues | src/types/user.ts:13-15 | the e-mail format and the minimum of 5 characters are each checked |
| UserSchema.BirthdateIssues | src/types/user.ts:16-18 | a missing birth date is reported |
| UserSchema.PasswordIssues | src/types/user.ts:19-21 | a missing password or one shorter than 6 is reported |
| UserSchema.PhoneIssues | src/types/user.ts:22 | a phone number that is not a number, or not positive, is reported |
| UserSchema.UniversityIssues | src/types/user.ts:23 | an `id_university` present but not a string is reported |
| UserSchema.RoleIssues | src/types/user.ts:24 | a missing role or one that is not a UUID is reported |
| UserSchema.Validate | src/types/user.ts:8-25 | the issues come field by field in declaration order |
| UserSchema.IdUserTypeReported | src/types/user.ts:9 | `IdUserNotString` is reported exactly when `id_user` is present but not a string (`null`, a number) |
| UserSchema.ReportedByItsField | src/types/user.ts:8-25 | an issue appears in the result exactly when its own field reports it |
| UserSchema.NameLengthReported | src/types/user.ts:10-12 | `NameTooShort` is reported exactly when a name is given with fewer than 2 characters |
| UserSchema.EmailLengthReported | src/types/user.ts:13-15 | `EmailTooShort` is reported exactly when the coerced e-mail has fewer than 5 characters |
| UserSchema.PasswordLengthReported | src/types/user.ts:19-21 | `PasswordTooShort` is reported exactly when a password is given with fewer than 6 characters |
| UserSchema.PhoneSignReported | src/types/user.ts:22 | `PhoneNotPositive` is reported exactly when the number is zero or negative |
| UserSchema.ValidIffRules | src/types/user.ts:8-25 | a form is accepted exactly when every field rule holds |
| UserSchema.MinimalFormAccepted | src/types/user.ts:8-25 | a form with only the required fields, each valid, is accepted |

## Left out

- Database access, the connection pool and SQL as text: tables are in-memory sequences and maps, and a failing query is `Backend.Down`.
- Time zones and locale formatting (`AT TIME ZONE 'America/La_Paz'`, `toLocaleString`, `toLocaleDateString`, `setHours`): the local day, hour, month and day-of-month are functions held in a `Calendar` value. `AttendanceStats.HourKey` stands for what `hoursLabel` returns for a bucket of hour h.
- AttendanceStats.LexLess stands for `localeCompare`. Only its order on the `HH:00` labels matters, and that order is proved.
- The mixing of a local-time `NOW()` with stored instants in `now − check_in_time` is not modelled: both sides are the same integer clock.
- Epoch seconds divided by 3600: durations stay in integer seconds, because the division is floating point.
- AttendanceQuery.PageParam and AttendanceQuery.PageSizeParam take whole numbers only. Non-numeric text, which becomes NaN under `Number(...)`, is not modelled, and neither is a fractional value such as `Number("2.5")`, which gives a fractional page and offset that an `int` cannot hold.
- AttendanceScan.FirstOpen takes the first open record of the owner in table order. The lookup has no `ORDER BY`, so the database may return another. Under the ledger invariant a registered owner has at most one open record, so the choice matters only for cards with a NULL owner, which never match.
- AttendanceScan.Scan takes the first `Card` row of a name as its owner, and DashboardSummary.Summarize counts unassigned cards in a directory keyed by name. Both assume card names are unique; with duplicate names the database would count each duplicate row.
- The check-then-act race between the lookup and the insert in the scan and registrations handlers: the model runs requests one at a time.
- The registrations `GET` route: an unfiltered `SELECT` with no rules.
- Registrations.Post stores a missing `id_usuario` as a NULL user. The table's schema is not part of this model, so a `NOT NULL` column, which would answer 500 instead, is not modelled.
- Registrations.Put returns the first updated row in table order. `UPDATE … RETURNING *` gives its rows in no defined order, so with several open entries of the user on the date the database may return another; under the one-open-entry-per-day invariant there is at most one.
- Registrations.Post takes the new uuid and the current ISO timestamp as parameters. Random ids and clocks are not modelled.
- Middleware.Decide treats `jwt.verify` followed by `JSON.stringify` as a given function. UserSchema takes the e-mail and UUID format tests of the validation library as given functions.
- UserSchema.Validate returns the broken rules as a list in field order. The library's message texts and issue paths are not modelled.
- RecordsTable.MatchesDate compares local days. This is what moving each instant to local midnight, or to the last millisecond of the day, achieves.
- ScheduleForm.TimeChanged requires a selected day: the time inputs exist only for selected days.
- DebugMonth.Sample takes the first ten of the month's rows in table order. Without `ORDER BY` the database's choice of rows is unspecified.
- Text.LowerChar maps only ASCII and Latin-1 capitals. JavaScript's `toLowerCase` and SQL `LOWER` cover all of Unicode, and a few characters (such as `İ`) lower to two code units; Text.ToLower keeps the length.
- Text.ParseInt reads base 10 only. JavaScript's `parseInt` without a radix reads a `0x` prefix as hexadecimal, so `parseInt("0x1A")` is 26 where the model gives 0; the values parsed here are weekday digits and clock fields.
- Lengths are counted in code points. The validation library's `.min(n)` and JavaScript's `length` count UTF-16 code units, which differ for characters outside the Basic Multilingual Plane.
- Chart geometry, the plain CRUD and authentication routes, the pages with hard-coded demo data, and the pages whose only logic is the same name filter as the records table are not part of this model.
