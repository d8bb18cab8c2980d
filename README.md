# Savings tracker: reports, transactions and the two list pages

This project models the core of a personal savings tracker in Dafny and proves properties of
the model. Users record debits and credits. The backend stores them in a `transactions` table,
lists them, adds them with validation and defaults, and deletes them after checking who owns
them. It also builds daily, weekly, monthly and annual reports. Each report holds the selected
records, the total of debits, the total of credits and the balance (credits minus debits). The
annual report also breaks the year down month by month. In the frontend, the transactions page
and the dashboard keep the list in memory, update it after an add or a delete, and show totals.
The transactions page also filters the list by a tab.

Modules, one per file:

- `Wrappers` (`wrappers.dfy`): `Option` and `Result`.
- `Seqs` (`seqs.dfy`): `Array.prototype.filter` as `Filter`, with its laws. Also first
  occurrences in order and distinctness.
- `Text` (`text.dfy`): the text operations the routes rely on. These are SQLite's ordering of
  text (`LexLe`), `LIKE 'p%'` as a prefix test (`StartsWith`), `String.prototype.slice`,
  decimal numerals, and JavaScript `parseInt` without a radix.
- `Calendar` (`calendar.dfy`): the proleptic Gregorian calendar behind JavaScript `Date`. It
  covers day numbers, `getDay`, parsing of date-only strings, `toISOString().split('T')[0]`,
  the Monday/Sunday week window, and a small `JsDate` class whose `setDate` changes the object
  in place.
- `Ledger` (`ledger.dfy`): the `Transaction` record, the totals that every report and page
  computes (`Totals`), removal by id, and `ORDER BY … DESC`.
- `JsObjects` (`jsobject.dfy`): the order in which `Object.entries` lists the keys of a plain
  object. Array-index keys come first, in ascending order; the other keys follow in insertion
  order.
- `TransactionRoutes` (`transactions.dfy`): `GET /`, `POST /` and `DELETE /:id`, as a class
  over the table's rows.
- `ReportRoutes` (`reports.dfy`): `GET /daily`, `/monthly`, `/annual` and `/weekly`. The
  annual grouping loop and the weekly date arithmetic are methods. Each is proved equal to the
  function that specifies it.
- `TransactionPage` (`transaction_page.dfy`) and `Dashboard` (`dashboard.dfy`): each page's
  list state is a class. Its handlers change the list in place. The tab filter and the totals
  are functions of that state.

Each request's inputs become parameters of the modelled operation. These are the signed-in
user's id, the query string values (`None` when absent), today's date, the current year, the
fresh id from `randomUUID()` and the insertion time. An API call the page makes becomes its
outcome: `None` (or `false` for a delete) when the request was rejected.

## Model

| member | source | states |
|---|---|---|
| `Ledger.Totals` | backend/src/routes/reports.ts:20-32 | the balance is the credit total minus the debit total; an empty list has all three at 0 |
| `Ledger.TotalsSingle` | backend/src/routes/reports.ts:20-26 | one record adds its amount to the debit total if its type is `debit`, to the credit total if `credit`, and to neither otherwise |
| `Ledger.TotalsConcat` | backend/src/routes/reports.ts:20-26 | the totals of two lists joined are the sums of their totals |
| `Ledger.TotalsNet` | backend/src/routes/reports.ts:32 | the balance equals the signed sum: credits count positive, debits negative, other types not at all |
| `Ledger.TotalsPermutation` | backend/src/routes/reports.ts:20-26 | the totals do not depend on the order of the records |
| `Ledger.WithoutIdContents` | frontend/src/pages/TransactionPage.tsx:41 | filtering out an id drops every record with that id and keeps every other record as often as it occurred |
| `Ledger.WithoutIdConcat` | frontend/src/pages/TransactionPage.tsx:41 | filtering out an id keeps the rest in order, piece by piece |
| `Ledger.WithoutAbsentId` | frontend/src/pages/TransactionPage.tsx:41 | deleting an id that no record has leaves the list as it was |
| `Ledger.WithoutUniqueId` | backend/src/routes/transactions.ts:59 | when exactly one record has the id, deleting it removes just that record and keeps the rest in order |
| `Ledger.OrderByDesc` | backend/src/routes/transactions.ts:15 | `ORDER BY … DESC` returns the same records, each as often as before |
| `Ledger.OrderByDescSorted` | backend/src/routes/transactions.ts:15 | `ORDER BY … DESC` returns the records with their keys in descending text order |
| `TransactionRoutes.AddResponseMatchesRow` | backend/src/routes/transactions.ts:36-40 | the answer repeats the stored id, type, amount, description and date. The payment method is `cash` exactly when none was given (or `cash` was). The category is stored as NULL exactly when it was missing or empty |
| `TransactionRoutes.TransactionTable.List` | backend/src/routes/transactions.ts:9-21 | the list holds exactly the caller's rows, each as often as stored, newest date first |
| `TransactionRoutes.TransactionTable.Add` | backend/src/routes/transactions.ts:24-44 | a missing or falsy type, amount, description or date gives 400 and changes nothing. A taken id makes the insert fail and changes nothing. Otherwise the row is appended with the defaults and echoed back. Ids stay unique |
| `TransactionRoutes.TransactionTable.Delete` | backend/src/routes/transactions.ts:47-64 | the answer is "deleted" exactly when the caller owns a row with that id. Then that one row goes and the rest stay in order; otherwise nothing changes |
| `ReportRoutes.MakeReport` | backend/src/routes/reports.ts:16-34 | a report lists exactly the selected rows, in descending key order, with the totals of the selection |
| `ReportRoutes.DailySelection` | backend/src/routes/reports.ts:8-38 | the period is `date` when it is given and non-empty, and today's ISO date otherwise. A record is listed exactly when it is the user's and dated on that day. The most recently created comes first, and the balance is credits minus debits |
| `ReportRoutes.MonthlySelection` | backend/src/routes/reports.ts:41-71 | a record is listed exactly when it is the user's and its date starts with the month text. The list is in descending date order and the totals are over the selection |
| `ReportRoutes.MonthlyCalendarMonth` | backend/src/routes/reports.ts:49-51 | for a month written `YYYY-MM`, a well-formed date is selected exactly when it falls in that calendar month |
| `ReportRoutes.MonthlyDefault` | backend/src/routes/reports.ts:46 | with no `month`, the report covers the current month, `YYYY-MM` |
| `ReportRoutes.MonthlyExample` | backend/src/routes/reports.ts:49-51 | a record dated 2024-03-15 is in the 2024-03 report and not in the 2024-04 report |
| `ReportRoutes.ReportYearOfNumeral` | backend/src/routes/reports.ts:79 | a non-zero year written as a numeral, possibly followed by text that cannot continue it, is taken as that year |
| `ReportRoutes.ReportYearSource` | backend/src/routes/reports.ts:79 | a year other than the current one comes only from a `year` that `parseInt` reads as that non-zero number; the year is never 0 unless the current year is |
| `ReportRoutes.ReportYearFallback` | backend/src/routes/reports.ts:79 | a missing, empty, non-numeric or zero `year` gives the current year |
| `ReportRoutes.GroupByMonth` | backend/src/routes/reports.ts:95-102 | the loop keys each record by the first seven characters of its date. Months are collected in the order first seen, and each month's list holds that month's records in list order |
| `ReportRoutes.MapEntriesOfGroups` | backend/src/routes/reports.ts:104-120 | mapping over the grouped months gives the same entries as grouping the list directly |
| `ReportRoutes.Annual` | backend/src/routes/reports.ts:74-132 | the route's result equals the annual report of the user's rows for the year read from `year` |
| `ReportRoutes.MonthlyDataMonths` | backend/src/routes/reports.ts:104 | the months come out in `Object.entries` order of the months as first seen, each at most once |
| `ReportRoutes.MonthlyDataDistinct` | backend/src/routes/reports.ts:95-104 | no month appears twice in the breakdown |
| `ReportRoutes.MonthlyDataHasMonth` | backend/src/routes/reports.ts:96-102 | every record's month appears in the breakdown |
| `ReportRoutes.MonthlyDataEntry` | backend/src/routes/reports.ts:104-120 | a month's entry lists exactly the records of that month, in list order, with their totals |
| `ReportRoutes.MonthlyDataCover` | backend/src/routes/reports.ts:95-120 | the months' lists together hold every record of the year exactly as often as the selection does |
| `ReportRoutes.MonthlyDataSums` | backend/src/routes/reports.ts:86-120 | the months' totals add up to the year's totals |
| `ReportRoutes.MonthlyDataInsertionOrder` | backend/src/routes/reports.ts:104 | when no month key is an array index, the months come in the order first seen |
| `ReportRoutes.MonthlyDataOrder` | backend/src/routes/reports.ts:96-104 | under that condition, a month listed earlier first occurs earlier in the selection |
| `ReportRoutes.IsoMonthKey` | backend/src/routes/reports.ts:97 | the key of a well-formed date is its `YYYY-MM` month and is never an array index |
| `ReportRoutes.EntriesIndexKeyFirst` | backend/src/routes/reports.ts:104 | a key that is an array index, such as `2024` from a malformed date, is listed before `2024-03` even when added after it |
| `ReportRoutes.YearReportTotals` | backend/src/routes/reports.ts:82-128 | the annual totals are over the selection and equal the sum of the months' totals. The months hold the selection exactly, and each month's list is in descending date order |
| `ReportRoutes.YearSelectionCalendar` | backend/src/routes/reports.ts:82-84 | for a four-digit year, a well-formed date is selected exactly when it falls in that calendar year |
| `ReportRoutes.WeekWindow` | backend/src/routes/reports.ts:140-147 | the `getDay`/`setDate` steps on the `Date` objects yield the ISO dates of the Monday that starts the anchor's week and of the Sunday six days later |
| `ReportRoutes.Weekly` | backend/src/routes/reports.ts:135-174 | a `date` that does not parse makes the route fail. Otherwise the result is the week report for that date, or for today when no date is given |
| `ReportRoutes.WeekReportPeriod` | backend/src/routes/reports.ts:141-165 | the week label is `<Monday> to <Sunday>`, the two days are six apart, and the anchor lies between them |
| `ReportRoutes.WeekSelection` | backend/src/routes/reports.ts:149-154 | a well-formed date is selected exactly when its day falls from that Monday to that Sunday; the list is in descending date order |
| `ReportRoutes.RangeSelection` | backend/src/routes/reports.ts:152-154 | `date >= ? AND date <= ?` on ISO date text selects exactly the days in the calendar range |
| `ReportRoutes.WeekExample` | backend/src/routes/reports.ts:140-147 | Wednesday 2024-01-03 lies in the week from Monday 2024-01-01 to Sunday 2024-01-07 |
| `JsObjects.EntriesOrder` | backend/src/routes/reports.ts:104 | `Object.entries` lists every key the object has, each once per time it was added |
| `JsObjects.EntriesOrderShape` | backend/src/routes/reports.ts:104 | array-index keys come before all other keys, in ascending numeric order; the other keys keep their insertion order |
| `JsObjects.EntriesInInsertionOrder` | backend/src/routes/reports.ts:104 | without array-index keys, the entries come in insertion order |
| `Text.ParseIntOfIntToString` | backend/src/routes/reports.ts:79 | `parseInt` reads back a decimal numeral and ignores text after it that cannot continue it |
| `Calendar.ParseDate` | backend/src/routes/reports.ts:140 | a date string that parses gives a valid calendar date with a four-digit year |
| `Calendar.ParseIsoDate` | backend/src/routes/reports.ts:140 | parsing the ISO text of a date gives that date back |
| `Calendar.IsoDateOfParse` | backend/src/routes/reports.ts:144 | a `YYYY-MM-DD` string that parses is printed back unchanged |
| `Calendar.FromDayNumber` | backend/src/routes/reports.ts:143 | turning a time value back into a date gives a valid date with that day number |
| `Calendar.DayNumberRoundTrip` | backend/src/routes/reports.ts:143 | a date's day number turns back into that date |
| `Calendar.WeekdayMatchesRfc` | backend/src/routes/reports.ts:141 | the weekday from the day number (`getDay`, 0 = Sunday) agrees with the day-of-week formula of RFC 3339 Appendix B |
| `Calendar.WeekStart` | backend/src/routes/reports.ts:142-143 | the week starts on the anchor's day number minus the days since Monday, with Sunday counting as six |
| `Calendar.WeekEnd` | backend/src/routes/reports.ts:145 | the week ends six days after it starts |
| `Calendar.WeekBounds` | backend/src/routes/reports.ts:141-147 | the start is a Monday and the end a Sunday under both weekday definitions, and the anchor lies between them |
| `Calendar.SundayWeek` | backend/src/routes/reports.ts:142 | a Sunday anchor ends its week; its Monday is six days earlier |
| `Calendar.JsDate.SetDate` | backend/src/routes/reports.ts:143 | `setDate(n)` moves the object to day `n` of its current month and year, rolling over as `Date` does, and returns the new time |
| `Calendar.IsoDateOrder` | backend/src/routes/reports.ts:152 | comparing ISO date text orders dates as the calendar does |
| `Calendar.IsoDateInMonth` | backend/src/routes/reports.ts:50-51 | an ISO date starts with `YYYY-MM` exactly when it falls in that month |
| `Calendar.IsoDateInYear` | backend/src/routes/reports.ts:83-84 | an ISO date starts with a four-digit year's numeral exactly when it falls in that year |
| `TransactionPage.AllTabKeepsList` | frontend/src/pages/TransactionPage.tsx:47-50 | the `all` tab shows the whole list unchanged |
| `TransactionPage.KindTabContents` | frontend/src/pages/TransactionPage.tsx:47-50 | the `debit` and `credit` tabs show each record of their type as often as it occurs and no other record |
| `TransactionPage.TabFilterConcat` | frontend/src/pages/TransactionPage.tsx:47-50 | a tab keeps list order: the tab view of two lists joined is their tab views joined |
| `TransactionPage.TabTotals` | frontend/src/pages/TransactionPage.tsx:52-60 | the totals over the tab's records have balance equal to credits minus debits |
| `TransactionPage.TabTotalsByTab` | frontend/src/pages/TransactionPage.tsx:47-60 | on `all` the totals are the whole list's. On `debit` the credits are 0 and the balance is minus the debits. On `credit` the debits are 0 and the balance is the credits |
| `TransactionPage.PrependTotals` | frontend/src/pages/TransactionPage.tsx:32-60 | after a record is put in front, the tab's totals are the old totals plus that record's share |
| `TransactionPage.TransactionPageState.PageTotals` | frontend/src/pages/TransactionPage.tsx:52-60 | the page's summary cards are over the tab's records, with balance equal to credits minus debits |
| `TransactionPage.TransactionPageState.constructor` | frontend/src/pages/TransactionPage.tsx:10-12 | the page starts with an empty list, loading, on the `all` tab |
| `TransactionPage.TransactionPageState.FetchTransactions` | frontend/src/pages/TransactionPage.tsx:18-27 | a successful fetch replaces the list and a failed one keeps it; loading ends either way |
| `TransactionPage.TransactionPageState.HandleAddTransaction` | frontend/src/pages/TransactionPage.tsx:29-36 | a successful add puts the answered record in front of the old list; a failed add changes nothing |
| `TransactionPage.TransactionPageState.HandleDeleteTransaction` | frontend/src/pages/TransactionPage.tsx:38-45 | a successful delete removes every record with the id and keeps the rest in order; a failed delete changes nothing |
| `TransactionPage.TransactionPageState.SetActiveTab` | frontend/src/pages/TransactionPage.tsx:12 | choosing a tab changes only the tab |
| `Dashboard.AppendTotals` | frontend/src/pages/Dashboard.tsx:33-56 | a record appended adds its amount to the total of its type and moves the balance accordingly |
| `Dashboard.AppendOrPrependTotals` | frontend/src/pages/Dashboard.tsx:33 | appending and prepending the same record give the same totals, so this page and the transactions page's `all` tab agree |
| `Dashboard.DeleteTotals` | frontend/src/pages/Dashboard.tsx:42-56 | removing the one record with an id takes exactly its share off the totals |
| `Dashboard.DashboardState.constructor` | frontend/src/pages/Dashboard.tsx:11-12 | the dashboard starts with an empty list, loading |
| `Dashboard.DashboardState.FetchTransactions` | frontend/src/pages/Dashboard.tsx:19-28 | a successful fetch replaces the list and a failed one keeps it; loading ends either way |
| `Dashboard.DashboardState.HandleAddTransaction` | frontend/src/pages/Dashboard.tsx:30-37 | a successful add appends the answered record to the old list; a failed add changes nothing |
| `Dashboard.DashboardState.HandleDeleteTransaction` | frontend/src/pages/Dashboard.tsx:39-46 | a successful delete removes every record with the id and keeps the rest in order; a failed delete changes nothing |
| `Dashboard.DashboardState.DashboardTotals` | frontend/src/pages/Dashboard.tsx:48-56 | the dashboard's totals are over the whole list, with balance equal to credits minus debits |

## Left out

- Amounts are integers (for example, cents). JavaScript numbers are floating point, and rounding in the sums is not modelled.
- Authentication (`authenticateToken`) and the signed-in user's id are outside the model. The id is a parameter.
- Database I/O and the 500 answers a failing query produces are not modelled. The one insert failure modelled is a taken primary key.
- `LIKE` is modelled as a case-sensitive prefix test. The query text is `<param>%`, so a `%` or `_` inside the parameter, which would act as a wildcard, is not modelled.
- The SQLite order among rows with equal keys is not fixed by the query. The model fixes one order (a stable sort) and states only that the keys descend and the rows are the same.
- Time zones are not modelled. Every `Date` is taken in UTC, so `getDay`/`getDate` agree with `toISOString`. In a zone behind or ahead of UTC the source mixes local and UTC days.
- `Calendar.ParseDate` accepts only the date-only ISO forms (`YYYY`, `YYYY-MM`, `YYYY-MM-DD`) with a valid day. Date-time strings and the other formats `Date` accepts give `None`.
- `Calendar.ParseDate` also gives `None` for a day past the end of its month. V8, the engine Node runs, accepts any day from 1 to 31 in `YYYY-MM-DD` and rolls it into the next month: `2023-02-30` becomes 2023-03-02, so `/weekly?date=2023-02-30` reports the week from 2023-02-27 to 2023-03-05, while the model's `Weekly` fails.
- `ReportRoutes.Weekly` returns `Failure(InvalidDate)` for a `date` that does not parse. In the source, `toISOString` throws a `RangeError` before the `try` (reports.ts:144, try at :149), so the `async` handler's promise is rejected. backend/src/index.ts installs no error middleware, and the Express version is not fixed. Under Express 4 the rejection is unhandled: the request gets no answer, and on Node 15 or later the process exits. Under Express 5 the rejection reaches the default handler, which answers 500. The model collapses all of these outcomes into one failure.
- `Text.ParseInt` models `parseInt` on integers of any size. Rounding beyond 2^53 and the exponent form of huge numerals are not modelled.
- A query parameter given more than once (an array) is not modelled. Parameters are optional strings.
- `YearSelectionCalendar` is stated only for four-digit years. For other years the selection is still modelled exactly as a text prefix, by `YearSelection`.
- `WeekSelection` is stated only when the week's two ends have years from 0 to 9999. ISO text outside that range uses a signed six-digit year.
- `MonthlyDataInsertionOrder` and `MonthlyDataOrder` assume no month key is an array index, which holds for well-formed dates by `IsoMonthKey`. The general order is `EntriesOrder`. Keys that name inherited properties of a plain object (such as `constructor`) cannot come from a date that starts with a year numeral and are not modelled.
- In the JSON answers, only string and integer fields are modelled. Absent fields are `None`.
- The pages' handlers read the list from the closure of the render that created them. Two requests in flight at once can therefore overwrite each other's update. The model applies each outcome to the current list, one at a time.
- The dashboard's `activeTab` (`transactions` or `reports`) only chooses what is drawn and is not modelled, nor is any JSX.
- The `console.error` logging in the pages' `catch` blocks is not modelled.
