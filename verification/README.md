# Smart Expense Tracker — a Dafny model

This project models the core of the Smart Expense Tracker, a small web
application that records personal expenses. The server side is an Express
API over a MongoDB collection of `Expense` documents. The browser side is a
single script that lists, filters, charts and exports those expenses.

The model covers:

- the `Expense` schema (`ExpenseModel`): the five categories, the
  `required`, `min` and `enum` validators and their messages, the trimmed
  description, and the defaults;
- the expense routes (`Routes`): the filtered list sorted newest first, the
  dashboard statistics (`Stats`, over the store queries in `Queries`), get,
  create, update and delete;
- the error-handling middleware (`Http`), which maps validation and cast
  errors to 400 and everything else to 500;
- the browser helpers (`Client`, `Csv`, `Currency`): the active filters,
  the amount guard and request body of the form, the budget and its
  warning, the theme toggle, the CSV export and `formatCurrency`.

Modelling choices:

- Amounts are integer cents. `formatCurrency` and the CSV amount cell are
  modelled as exact decimal renderings of those cents.
- The collection is a sequence of records (`Queries.Store`). Each handler
  is a function from the store and the request to the new store and the
  response.
- Times are civil days plus milliseconds of the day, in one time zone
  (`Calendar`). This includes the carrying behaviour of JavaScript's `Date`
  constructor: month 13 is January of the next year, and day 0 is the last
  day of the previous month.
- "Now", "today" and newly issued record identifiers are parameters.

Other helpers are shared by these modules:

- `Text` holds JavaScript's `trim`, `Array.join` and decimal digits.
- `Wrappers` holds `Option` and `Result`.

The statistics pipeline sorts the category totals with `$sort: { total: -1 }`,
so the category with the largest total comes first. That is what
`Queries.GroupByCategory` states.

## Model

| member | source | states |
|---|---|---|
| ExpenseModel.ParseCategory | models/Expense.js:9-24 | a string is accepted exactly when it is one of the five category names, with exact case |
| ExpenseModel.CategoryNameRoundTrip | models/Expense.js:9 | every category's name reads back as that category |
| ExpenseModel.CategoriesListsEachOnce | models/Expense.js:9 | the category list holds each of the five categories exactly once |
| ExpenseModel.AmountErrors | models/Expense.js:12-16 | a missing amount gives exactly "Amount is required", a negative one exactly "Amount cannot be negative"; the path reports nothing exactly when an amount is present and not negative |
| ExpenseModel.CategoryErrors | models/Expense.js:17-24 | a missing or empty category gives exactly "Category is required"; any other value outside the five names gives exactly the enum message naming that value; nothing is reported exactly when the value is a category name |
| ExpenseModel.Validate | models/Expense.js:11-37 | a new record is accepted iff both paths pass; failures list each failing path's message in schema order; an accepted record keeps the amount and category, trims the description (default empty) and defaults the date to now |
| ExpenseModel.ValidationReportsEachField | models/Expense.js:12-24 | a negative amount and an unknown category together give both messages, amount first |
| ExpenseModel.UpdateErrors | models/Expense.js:12-24 | only the paths being set are validated, each with its whole chain, and each failing path gives exactly one message: a negative amount the `min` message first, an empty category "Category is required" and an unknown one the enum message last; a left-out path never gives "Amount is required"; the update is refused exactly when a set amount is negative or a set category is not a category name |
| ExpenseModel.ApplyUpdate | routes/expenseRoutes.js:152-164 | an update changes only the fields present in the request (the description through the trim setter) and keeps the identifier |
| ExpenseModel.EmptyUpdateIsIdentity | routes/expenseRoutes.js:154-158 | an update with no fields leaves the record unchanged |
| ExpenseModel.UpdatePreservesValidity | models/Expense.js:12-29 | an accepted update of a valid record gives a valid record |
| ExpenseModel.UpdateIdempotent | routes/expenseRoutes.js:150-170 | applying the same update twice equals applying it once |
| Text.Trim | models/Expense.js:28 | the result has no surrounding whitespace and is the input with leading and trailing whitespace removed |
| Text.TrimFixesExactlyTrimmed | models/Expense.js:28 | trimming leaves a string unchanged exactly when it has no surrounding whitespace |
| Text.TrimIdempotent | public/app.js:217 | trimming twice is trimming once, so the client's trim and the schema's agree |
| Text.Join | server.js:52 | joining a single part gives that part unchanged |
| Text.JoinContainsParts | server.js:52 | every part appears unchanged in the joined string, at the offset after the parts and separators before it |
| Text.JoinSnoc | public/app.js:480-482 | joining one more part appends the separator and that part |
| Queries.Select | routes/expenseRoutes.js:24 | the selection holds exactly the records that match, each exactly as often as in the store |
| Queries.SelectAppend | routes/expenseRoutes.js:24 | selection keeps store order: selecting from two stores joined is joining their selections |
| Queries.TotalAppend | routes/expenseRoutes.js:48-52 | the sum of two stores joined is the sum of their sums |
| Queries.TotalNonNegative | routes/expenseRoutes.js:48-52 | the total of valid records is not negative |
| Queries.SortNewestFirst | routes/expenseRoutes.js:24 | the list is ordered by date, newest first, and is a permutation of its input |
| Queries.GroupByMonth | routes/expenseRoutes.js:68-81 | month buckets have distinct keys in ascending (year, month) order, one per month present, each holding that month's sum |
| Queries.AscendingBucketTotal | routes/expenseRoutes.js:71-79 | in ascending buckets, the total found under a bucket's key is that bucket's total |
| Queries.GroupByCategory | routes/expenseRoutes.js:84-88 | category buckets are ordered by total, largest first |
| Queries.CategoryBreakdown | routes/expenseRoutes.js:84-88 | exactly one bucket per category that occurs, each holding that category's sum, and the bucket totals add up to the all-time total |
| Calendar.DaysInMonth | routes/expenseRoutes.js:43 | months have 28 to 31 days, and 29 exactly for February of a leap year |
| Calendar.YearLength | routes/expenseRoutes.js:42-43 | on the count of days, a year is 366 days long exactly when it is a leap year, otherwise 365 |
| Calendar.DayNumberIncreasing | routes/expenseRoutes.js:42-43 | later valid days have larger day numbers |
| Calendar.DayNumberInjective | routes/expenseRoutes.js:42-43 | a valid day is determined by its day number |
| Calendar.CarryDays | routes/expenseRoutes.js:42-43 | the result is a valid day; a day number in range is kept, one below 1 moves to an earlier month and one past the month's end to a later month |
| Calendar.CarryDaysCounts | routes/expenseRoutes.js:42-43 | the carried day lies `date - 1` days after the first of the month on the count of days |
| Calendar.CarryDaysExact | routes/expenseRoutes.js:42-43 | the carried day is exactly the one valid day lying `date - 1` days after the first of the month |
| Calendar.CarryOneMonth | routes/expenseRoutes.js:42-43 | a day number up to 28 past the month's end is that many days into the next month |
| Calendar.ConstructorYear | routes/expenseRoutes.js:42-43 | the `Date` constructor reads years 0 to 99 as 1900 to 1999 and keeps every other year |
| Calendar.MakeDay | routes/expenseRoutes.js:42-43 | any year, month index and day number, however far out of range, name a valid calendar day |
| Calendar.MakeDayExact | routes/expenseRoutes.js:42-43 | `new Date(year, monthIndex, date)` is exactly the valid day `date - 1` days after the first of the month with index `year * 12 + monthIndex` |
| Calendar.MakeDayZero | routes/expenseRoutes.js:43 | day 0 of a month is the last day of the month before |
| Calendar.WholeDayRange | routes/expenseRoutes.js:20-21 | an instant is between midnight and 23:59:59.999 of a day exactly when it falls on that day |
| Calendar.AtOrBeforeIsTotalOrder | routes/expenseRoutes.js:24 | comparing instants is a total order |
| Calendar.FormatThenParseIsoDay | public/app.js:218 | a day written as `YYYY-MM-DD` reads back as the same day |
| Calendar.ParseThenFormatIsoDay | routes/expenseRoutes.js:20-21 | a `YYYY-MM-DD` string that reads as a day is exactly that day's spelling |
| Calendar.FormatIsoDay | public/app.js:218 | a day is written as ten characters with dashes at positions 4 and 7 |
| Calendar.ParseIsoDay | routes/expenseRoutes.js:20-21 | a string that reads as a day names a real calendar day with a four-digit year |
| Stats.WindowIsOneMonth | routes/expenseRoutes.js:41-44 | the month window holds exactly the instants of one calendar month, counted from January of the constructor's year |
| Stats.WindowIsNamedMonth | routes/expenseRoutes.js:41-44 | for a month from 1 to 12 and a year above 99, the window is exactly that month of that year |
| Stats.MonthlyTotal | routes/expenseRoutes.js:40-60 | without both month and year, the monthly total is the all-time total |
| Stats.MonthlyTotalIsMonthSum | routes/expenseRoutes.js:41-60 | with both, it is the sum of the records dated in that month |
| Stats.SeriesStartAsWritten | routes/expenseRoutes.js:63-66 | the series bound as the code computes it lands on the first of a month |
| Stats.SeriesStart | routes/expenseRoutes.js:63-66 | the intended bound: midnight on the first of the month five months before the current one |
| Stats.SeriesStartAsWrittenAgreesIff | routes/expenseRoutes.js:63-66 | the code's bound is the intended one exactly when today's day of the month exists five months back |
| Stats.SeriesStartAsWrittenSkipsAMonth | routes/expenseRoutes.js:63-66 | on 31 July 2024 the code starts at 1 March, not 1 February |
| Stats.SeriesStartAsWrittenSkips | routes/expenseRoutes.js:63-66 | whenever today's day of the month is past the end of the month five months back, the code starts the series on the first of the month after it |
| Stats.InSeriesByMonth | routes/expenseRoutes.js:69 | a record is in the series exactly when its month is at most five months before the current one |
| Stats.MonthlySeries | routes/expenseRoutes.js:62-81 | the monthly series holds exactly the months with records from five months back onward, each with that month's total |
| Stats.MonthlyData | routes/expenseRoutes.js:62-81 | the monthly series is in ascending month order, each month once |
| Stats.ComputeStats | routes/expenseRoutes.js:47-95 | the total is the all-time sum; the month's total is the all-time sum without both `month` and `year`, and that calendar month's sum with a month from 1 to 12 and a year above 99; the category data has one bucket per category present, each holding that category's sum, together summing to the total, largest first; the monthly data holds exactly the months with records from five months back onward, ascending, each with that month's sum |
| Stats.EmptyStoreSnapshot | routes/expenseRoutes.js:52-60 | an empty store gives zero totals and empty series |
| Http.ErrorResponse | server.js:44-66 | validation and cast errors give 400, anything else 500; validation details join every message with `', '`; cast errors say "Invalid expense ID"; a server error carries its own message, or "Something went wrong" when that message is empty |
| Http.ValidationDetailsCarryEveryMessage | server.js:48-53 | every validation message appears intact in the details, at its offset |
| Http.ValidationDetailsAppend | server.js:49-52 | one more message extends the details by `', '` and that message |
| Routes.FindIndex | routes/expenseRoutes.js:105-107 | the position found holds the identifier and is the first such; none is found exactly when no record has it |
| Routes.BuildFilter | routes/expenseRoutes.js:9-22 | the category constrains only when set and not `'all'`; start and end dates bound the range from midnight to 23:59:59.999; a date that does not parse is a cast error |
| Routes.FindSorted | routes/expenseRoutes.js:24 | the matching records, newest first, each exactly as often as in the store and non-matching ones not at all |
| Routes.ListExpenses | routes/expenseRoutes.js:7-29 | an unparsable date gives 400 "Invalid expense ID"; otherwise 200 with exactly the matching records, each as often as in the store, newest first |
| Routes.ListOneDay | routes/expenseRoutes.js:13-24 | a one-day range with a category lists exactly that category's records of that day |
| Routes.AllCategoryIsNoFilter | routes/expenseRoutes.js:13-15 | the category `'all'` and an empty category filter like no category |
| Routes.GetStats | routes/expenseRoutes.js:35-95 | the statistics route answers 200 with the snapshot `Stats.ComputeStats` describes, whose total is the all-time sum |
| Routes.GetExpense | routes/expenseRoutes.js:105-115 | a malformed identifier gives 400, an unknown one 404, a known one 200 with that record |
| Routes.CreateExpense | routes/expenseRoutes.js:121-144 | a missing or zero amount or a missing or empty category gives 400 "Amount and category are required"; a date that `new Date` cannot read gives 400 "Validation failed"; otherwise 201 exactly when the schema accepts, adding exactly the new record, dated with the request's date or now; any failure leaves the store unchanged |
| Routes.CreateRejectsZeroAmount | routes/expenseRoutes.js:125 | an amount of 0 with a category name gets 400 "Amount and category are required", and the schema's validation alone would accept that record |
| Routes.CreateReportsInvalidCategory | routes/expenseRoutes.js:131-142 | an unknown category that passes the presence check is reported by the schema as not a valid category |
| Routes.CreateThenGet | routes/expenseRoutes.js:121-144 | creating under a fresh identifier keeps the store well formed, and getting that identifier returns the new record |
| Routes.UpdateExpense | routes/expenseRoutes.js:150-174 | a malformed identifier or an unreadable date gives 400 "Invalid expense ID", then invalid fields give 400, then an unknown identifier gives 404; 200 exactly when all three pass; failures leave the store unchanged |
| Routes.CastUpdate | routes/expenseRoutes.js:155-159 | the update body is cast exactly when its date is readable or left out; a cast update carries the amount, category and description unchanged and sets the date exactly when one was given |
| Routes.UpdateChangesOnlyTarget | routes/expenseRoutes.js:150-170 | a successful update rewrites only the addressed record, keeps absent fields, returns the new record, and keeps the store well formed |
| Routes.DeleteExpense | routes/expenseRoutes.js:180-190 | a malformed identifier gives 400, an unknown one 404; otherwise the record is removed and returned with "Expense deleted successfully" |
| Routes.DeleteTwiceIsNotFound | routes/expenseRoutes.js:180-190 | after a delete the store is well formed, and deleting or getting the same identifier again gives 404 |
| Client.ActiveFilters | public/app.js:291-303 | a filter is sent exactly when its control is set, and the category only when not `'all'` |
| Client.ActiveFiltersAgreeWithServer | public/app.js:291-303 | leaving unset filters out selects the same records as sending them |
| Client.AmountGuard | public/app.js:207-212 | the form proceeds exactly when the amount parses and is above zero |
| Client.SubmitPayload | public/app.js:203-219 | the request body carries the guarded amount, the category, the trimmed description, and the date or else today's `YYYY-MM-DD` |
| Client.GuardedPayloadIsCreated | public/app.js:214-219 | a guarded body naming a category is created with that amount, category, description and date |
| Client.FailureText | public/app.js:89-90 | the message shown is the error body's details when they are non-empty, else its error when that is non-empty, else the fallback |
| Client.FailureTextOfRejections | public/app.js:90 | a rejected record shows the joined schema messages; a malformed identifier shows "Invalid expense ID" |
| Client.SaveBudget | public/app.js:408-418 | a budget that does not parse or is negative is refused; any other value, 0 included, is stored |
| Client.LoadBudget | public/app.js:401-406 | the field shows the stored value as it parses, and the default only when nothing is stored |
| Client.WarningBudget | public/app.js:421 | the warning uses the stored budget unless it is missing, unreadable or 0, when it uses $2000 |
| Client.BudgetWarning | public/app.js:420-434 | exceeded at or above the budget, approaching at or above 90% of it, within otherwise |
| Client.BudgetWarningMonotone | public/app.js:420-434 | spending more never gives a milder warning |
| Client.ZeroBudgetShownButNotUsed | public/app.js:401-421 | a saved 0 is shown as 0 but warned about against the default |
| Client.SavedBudgetIsUsed | public/app.js:408-424 | a saved positive budget is the one shown and the one warned against |
| Client.ToggleTheme | public/app.js:446-448 | the next theme is light or dark, and dark exactly when the current one is light or unset |
| Client.ThemeNotice | public/app.js:452 | the notice names the new theme with a capital letter |
| Client.ToggleThemeInvolution | public/app.js:446-448 | toggling twice returns to the starting theme |
| Client.ExportStore | public/app.js:463-469 | nothing is exported exactly when there are no records |
| Client.ExportHoldsEveryRecord | public/app.js:463-482 | the export holds every stored record exactly once, newest first, and reads back cell for cell |
| Csv.DateCell | public/app.js:504-511 | the short date cell holds no quote character |
| Csv.FractionText | public/app.js:474 | the amount's fraction is empty for whole numbers, otherwise one or two digits with no trailing zero denoting the cents |
| Csv.AmountCell | public/app.js:474 | the amount cell holds no quote character |
| Csv.AmountCellRoundTrip | public/app.js:474 | reading the amount cell back as an optionally signed decimal with up to two fraction digits gives exactly the original cents |
| Csv.EscapeQuotes | public/app.js:476 | doubling quotes leaves a text without quotes unchanged |
| Csv.ExportCsv | public/app.js:466-482 | there is a file exactly when there are records |
| Csv.HeaderJoinsColumnNames | public/app.js:471-480 | the header is the four column names joined by commas |
| Csv.ParseQuotedEscaped | public/app.js:476-481 | an escaped, quoted cell reads back as the original text |
| Csv.ParseCellsEncoded | public/app.js:481 | a line of quoted cells reads back as its cells |
| Csv.ExportRoundTrip | public/app.js:471-482 | reading the file back gives one record per expense, in order, with its date, amount, category and exact description |
| Csv.ExportShape | public/app.js:479-482 | a one-record file is the header, a line break, then that record's line |
| Csv.RowLineShape | public/app.js:472-481 | a record's line is its date, amount, category and escaped description, each in quotes, separated by commas |
| Currency.GroupMatchesRegex | public/app.js:501 | grouping the integer digits in threes from the right inserts exactly the commas the pattern `\d(?=(\d{3})+\.)` inserts |
| Currency.UngroupGroup | public/app.js:501 | removing the commas gives back the digits |
| Currency.FormatCurrency | public/app.js:500-502 | the text starts with `$`, carries a minus sign exactly for negative amounts, and ends with a point and the two cent digits |
| Currency.FormatCurrencyRoundTrip | public/app.js:500-502 | the text reads back as the same number of cents |

## Left out

- Input and output: MongoDB, Express routing, JSON encoding and the DOM. The store is a sequence and handlers are functions.
- Charts, toasts other than the theme notice, the table rendering, loading indicators and `localStorage` itself. Stored values are passed in and returned.
- The server start-up, the database connection, the seed script, and the `createdAt`/`updatedAt` timestamps.
- Concurrency between requests.
- Time zones. All instants are in one zone, and a date-only string is read as midnight of that day.
- The range limit of JavaScript's `Date`, about 273,790 years either side of 1970. Years here are unbounded, so no instant becomes an Invalid Date by being too far out.
- Floating-point amounts. Amounts are integer cents, so `parseFloat` on a non-integral number of cents, rounding in `toFixed`, and NaN amounts reaching the schema are not modelled.
- Request fields that are not numbers or strings, such as arrays or objects.
- Routes.BuildFilter: only `YYYY-MM-DD` dates are read. A date in any other spelling, or with a day past its month's end, is treated as unparsable and gives the cast error.
- Routes.GetExpense: identifiers are 24 hexadecimal digits. Other identifier forms the driver might accept are not modelled.
- Routes.CreateExpense: the request amount is an already-parsed number. A string amount that `parseFloat` cannot read is not modelled.
- Routes.CreateExpense: for a date `new Date` cannot read, the contract promises 400 "Validation failed" with the store unchanged, not the driver's exact cast message or its place among the details.
- Calendar.CarryDays: its own contract fixes the day only when no carrying happens. The exact carried day is stated by `Calendar.CarryDaysExact`.
- Calendar.MakeDay: its own contract promises only a valid day. The exact day is stated by `Calendar.MakeDayExact`.
- Stats.MonthlyTotal: `month` and `year` are already parsed integers. A parameter that `parseInt` reads as NaN is not modelled.
- Stats.MonthlyData: it uses the corrected series bound `Stats.SeriesStart`, not the one the code computes (see Findings).
- Queries.GroupByCategory: the order of categories with equal totals is not fixed by the database. The model keeps the order of the category list.
- Csv.AmountCell: amounts of 10^21 or more, which JavaScript writes in exponent notation, are not modelled.
- Csv.DateCell: the era marks the `en-US` format uses for years before 1 are not modelled.
- Currency.FormatCurrency: the NaN text `$NaN`, shown for an unreadable stored budget, is not modelled. Neither is the exponent notation `toFixed` gives for 10^21 dollars or more, such as `$1e+21`, which has no point or cent digits.
- Client.SubmitPayload: today's date comes from `toISOString`, in UTC. It is a parameter here.
- The editing path of the form, which sends the same body to the update route, is covered by `Routes.UpdateExpense` and not modelled separately.

## Findings

| source | as written | input that shows it | evidently intended | confidence | as-written member | corrected member |
|---|---|---|---|---|---|---|
| routes/expenseRoutes.js:63-66 | `setMonth(getMonth() - 5)` runs before `setDate(1)`, so today's day of the month carries into the next month when the month five months back is shorter | on 31 July 2024 the target is "31 February", which becomes 2 March and then 1 March, so February is left out of the six-month series | the series starts on the first of the month five months back: 1 February 2024 | not executed | Stats.SeriesStartAsWritten (shown by Stats.SeriesStartAsWrittenSkipsAMonth and, for all inputs, Stats.SeriesStartAsWrittenSkips) | Stats.SeriesStart (used by Stats.MonthlyData, proved in Stats.MonthlySeries) |
