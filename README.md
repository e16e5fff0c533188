# financas — a verified model of the ledger, the scheduled items and the chat context

`financas` is a browser client for personal finances. It keeps a ledger of
confirmed transactions `{description, amount, date, type}` per signed-in
user. From that ledger it shows:

- a dashboard: the balance, and the income and expenses of the current month;
- a projected balance for a chosen date, and a day-by-day chart towards it;
- the list of transactions, grouped under one header per day;
- per-description statistics for one month.

A separate manager (`FutureTransactionsManager`) keeps the scheduled bills
and incomes. It can confirm one of them into the ledger. An assistant chat
sends the recent history and a financial summary with each question.

The client exists in three copies: `js/app.js`, `js/app-vintage.js` and
`js/app-vintage-fixed.js`. They share the dashboard, projection and
transaction-list code and differ in five ways:

- whether a transaction dated today already counts toward the balance;
- which clock gives today's date and month: UTC in `app.js` and
  `app-vintage.js`, local time in the fixed copy;
- the order of the list;
- how the chat request is built;
- which extra views each has. Only the fixed copy has the projection chart
  (`renderBalanceChart`), the statistics (`calculateStats`) and their
  category filter (`updateStatsCategoryFilter`). Only `app.js` has the
  "Hoje"/"Amanhã" day labels (`formatDateHeader`) and the upcoming list.
  `app-vintage.js` prints its day headers with `formatDateVintage`.

This project models:

- **The ledger aggregator**, in the modules `Ledger`, `TransactionList`,
  `Statistics` and `Chart`. `Ledger` and `TransactionList` are the part
  all three copies share, and `Scripts` instantiates them once per copy;
  `Statistics` and `Chart` model views only the fixed copy has.
  - Amounts are integer cents.
  - "Today" is a parameter.
  - Dates are calendar days with a day number (`Calendar`).
  - The balance comes in two forms, modelled as `Cutoff`. `Inclusive`
    counts today; it belongs to the fixed copy. `Strict` leaves today out;
    it belongs to `app.js` and `app-vintage.js`. Those two compare 03:00 UTC
    of the transaction's day with UTC midnight of today.
- **The global session state** of each copy (`Session.AppState`), modelled
  as a class:
  - the identity;
  - the transaction list and the chat history, which the snapshot
    listeners replace wholesale.
- **`FutureTransactionsManager`** (`Scheduled`), modelled as a class:
  - two local lists, two collection references and two listener flags;
  - its writes go to a document store (`FutureStore.Store`) whose writes
    may fail;
  - the due-status of an item (`DueStatus`).
- **The chat context** (`ChatContext`, `AppJs`, `AppVintage`,
  `AppVintageFixed`):
  - the window of recent messages sent along;
  - the role mapping;
  - the backward count of messages since the last data message;
  - the rule that decides when the fixed copy injects the summary again.

  The stored history keeps each prompt exactly as typed, never the summary
  sent with it. So unless a user types the tag `[DADOS FINANCEIROS]`, the
  "messages since the data" counter is simply the length of the window
  (`ChatContext.CounterIsWindowLength`). The "five messages" rule then fires
  whenever the history holds five or more messages
  (`AppVintageFixed.RefreshRule`).

Some properties relate several operations:

- the balance does not depend on list order (`Ledger.BalancePermutation`);
- the two cut-offs differ by exactly the net of the day
  (`Ledger.InclusiveIsStrictPlusDay`);
- each chart point has a closed form (`Chart.SeriesMeaning`). When it
  adds its own day's rows, it is the inclusive balance of its day, less
  today's net under the strict cut-off. When the browser's zone makes it
  add the day before, it is the strict balance of its day;
- the statistics groups sum back to the totals of the filtered list
  (`Statistics.SummaryTotals`);
- a confirmed item, dated the same day the copies take as today, moves
  only the fixed copy's balance that day (`Scheduled.ConfirmedEntryInBalance`).

## Model

| member | source | states |
|---|---|---|
| Calendar.SuccIsNextDay | js/app-vintage-fixed.js:534-549 | `setDate(getDate() + 1)` gives a valid day one day number later, after the day and on or before every later day |
| Calendar.DayNumberOrder | js/app-vintage-fixed.js:536 | comparing two dates as instants agrees with comparing their day numbers, both ways |
| Calendar.IsoTextOrder | js/future-transactions.js:183-187 | for years up to 9999, comparing the `YYYY-MM-DD` texts as JavaScript strings is comparing the days; equal texts are equal days |
| Calendar.IsoCompare | js/future-transactions.js:183-187 | two `Y-M-D` texts whose year and month fields have equal widths compare field by field, year first, and are equal exactly when every field is |
| Ledger.Dashboard | js/app-vintage-fixed.js:406-443 | one pass gives the balance under the copy's cut-off, and the income and expense totals of today's calendar month |
| Ledger.Projection | js/app-vintage-fixed.js:445-467 | no result without a selected date; otherwise the signed sum of every transaction dated on or before it |
| Ledger.MonthOfMembers | js/app-vintage-fixed.js:431 | a transaction is in the month's list exactly when it is in the ledger and dated in that year and month |
| Ledger.MonthSumsMatch | js/app-vintage-fixed.js:431-437 | the income and expense accumulated during the dashboard pass equal the totals of the month's filtered list |
| Ledger.IncomePlusExpense | js/app-vintage-fixed.js:432-436 | every transaction lands in exactly one of the two totals: income + expense = sum of all amounts |
| Ledger.MonthTotalsSplit | js/app-vintage-fixed.js:431-437 | the same for the month's transactions |
| Ledger.BalanceAppend | js/app-vintage-fixed.js:421-429 | the balance of a concatenation is the sum of the balances |
| Ledger.BalanceIgnoresExcluded | js/app-vintage-fixed.js:427-429 | a transaction the cut-off leaves out changes nothing, wherever it sits in the list |
| Ledger.InclusiveIsStrictPlusDay | js/app.js:322-324 | the inclusive balance of a day is the strict one plus the net of that day |
| Ledger.BalanceNextDay | js/app-vintage-fixed.js:537-549 | moving the inclusive cut-off to the next day adds exactly that day's net |
| Ledger.BalanceRemoveAt | js/app-vintage-fixed.js:421-429 | taking one transaction out removes exactly its share of the balance |
| Ledger.BalancePermutation | js/app-vintage-fixed.js:512-514 | the balance is the same for any reordering of the ledger (the chart sorts, the dashboard does not) |
| Ledger.NetOnPermutation | js/app-vintage-fixed.js:538-544 | so is the net of one day |
| Ledger.ProjectionIgnoresLater | js/app-vintage-fixed.js:457-461 | a transaction dated after the projection date leaves the projection as it was |
| Scripts.UpdateDashboard | js/app.js:314-333 | each copy's dashboard: the balance under its cut-off (strict for `app.js` and `app-vintage.js`, inclusive for the fixed copy); the month's income and expense, which add up to the month's gross amount |
| Scripts.CutoffOf | js/app.js:316-323 | each copy's cut-off is its `txDate <= today` test: 03:00 UTC of the row's day against UTC midnight today in `app.js` and `app-vintage.js` (js/app-vintage.js:350-357), local midnight against the last millisecond of the local day in the fixed copy (js/app-vintage-fixed.js:411-427) |
| Scripts.ListingOf | js/app.js:274-278 | a day is listed strictly first exactly when the copy's comparator is negative: `dateB - dateA` (newest first) in `app.js` and `app-vintage.js`, `dateA - dateB` (oldest first) in the fixed copy (js/app-vintage-fixed.js:354-357) |
| Scripts.DatedToday | js/app-vintage.js:348-366 | a transaction dated today moves the fixed copy's balance by its signed amount and leaves the other two copies' balances as they were |
| Scripts.DatedBeforeToday | js/app-vintage-fixed.js:427-429 | a transaction dated before today counts in every copy |
| Scripts.RenderTransactionList | js/app-vintage.js:300-316 | each copy's list: a permutation of the ledger in its direction (newest first for `app.js` and `app-vintage.js`, oldest first for the fixed copy), with one header per distinct day, strictly ordered |
| Sorting.Insert | js/app-vintage-fixed.js:354-358 | inserting into a sorted list keeps it sorted and adds exactly the one element |
| Sorting.Sort | js/app-vintage-fixed.js:354-358 | `sort` with a comparator returns a permutation of its input in comparator order |
| TransactionList.SortedPairwise | js/app.js:274-278 | order between neighbours extends to every pair: no later row's day precedes an earlier row's |
| TransactionList.SortByDate | js/app-vintage-fixed.js:354-358 | the sorted rows are a permutation of the ledger, and no later row's day precedes an earlier one's in the listing direction |
| TransactionList.DateHeaders | js/app.js:280-289 | walking rows in listing order and emitting a header when the day changes yields every row's day, only rows' days, every earlier header strictly before every later one |
| TransactionList.ChainAppend | js/app.js:280-289 | a header whose day comes after the last header's keeps the headers strictly ordered |
| TransactionList.RenderTransactions | js/app-vintage-fixed.js:344-374 | the rendered rows are a permutation of the ledger in listing order; the header days are exactly the ledger's days, each once, in listing order; nothing for an empty ledger |
| Statistics.Descriptions | js/app-vintage-fixed.js:948 | `transactions.map(tx => tx.description)`, position by position |
| Statistics.Distinct | js/app-vintage-fixed.js:948 | `[...new Set(...)]` keeps each description once and loses none |
| Statistics.ByCategory | js/app-vintage-fixed.js:980-982 | the category filter keeps exactly the transactions with that description; the empty choice keeps all |
| Statistics.StatsFilter | js/app-vintage-fixed.js:973-982 | a transaction is covered exactly when it is in the selected month and, if a category is chosen, has that description |
| Statistics.SortNames | js/app-vintage-fixed.js:1011 | `Object.keys(...).sort()`: the same names, sorted in JavaScript string order, without repeats |
| Statistics.CategoryOptions | js/app-vintage-fixed.js:945-959 | the category list holds every description of the ledger exactly once, in string order |
| Statistics.DescriptionsExact | js/app-vintage-fixed.js:949 | a text is among the ledger's descriptions exactly when some transaction carries it |
| Statistics.SumGroupOfStep | js/app-vintage-fixed.js:990-1005 | adding a transaction adds its contribution to its own group once and to no other group |
| Statistics.GroupsCoverTotals | js/app-vintage-fixed.js:1039-1041 | summed over distinct keys covering every description, the groups give back the list's income, expense and count |
| Statistics.GroupHasMember | js/app-vintage-fixed.js:990-1005 | a group with a nonzero count has a transaction with that description behind it |
| Statistics.GroupByDescription | js/app-vintage-fixed.js:990-1005 | one dictionary entry per description of the list and no other, each holding exactly that description's income, expense and count |
| Statistics.GroupingStep | js/app-vintage-fixed.js:990-1005 | one row of the pass (create the entry at zero and append its key when missing, then add the row) keeps the key list duplicate-free and equal to the dictionary's keys, gives every row seen so far an entry, and keeps every entry equal to its description's non-empty group |
| Statistics.SummaryTotals | js/app-vintage-fixed.js:1039-1041 | the `reduce` over the groups gives the filtered list's total income, total expense and number of transactions |
| Statistics.SumGroups | js/app-vintage-fixed.js:1039-1041 | the `reduce` over non-empty groups gives a count at least the number of groups |
| Statistics.CalculateStats | js/app-vintage-fixed.js:961-1041 | nothing without a month; "no transactions" exactly when the filter is empty; otherwise the groups are exactly the filtered descriptions, with their totals, categories sorted and distinct, and the summary equal to the filtered totals |
| Chart.DayNet | js/app-vintage-fixed.js:538-544 | the inner pass gives the net signed amount of the transactions dated that day |
| Chart.OpeningBalance | js/app-vintage-fixed.js:521-527 | the opening pass gives the balance under the cut-off |
| Chart.BalanceSeries | js/app-vintage-fixed.js:507-550 | the chart series starts on today with the opening balance; each point is the next day with the previous point plus the net of its matched day (its own, or the day before); it has one point per day up to the projection date (only the opening point if that date is not after today) |
| Chart.SeriesAppend | js/app-vintage-fixed.js:536-549 | appending the next day with the previous point plus the net of its matched day keeps a well-formed chart series |
| Chart.SeriesMeaning | js/app-vintage-fixed.js:521-550 | point `i` is day today+`i`; matching its own day, its value is that day's inclusive balance less today's net when the opening pass leaves today out; matching the day before, it is the balance of everything dated before its day, plus today's net when the opening pass counts today |
| Chart.LastPoint | js/app-vintage-fixed.js:537-550 | the last point of a series reaching the projection date is that date, with the closed-form value of `SeriesMeaning` for it |
| AppVintageFixed.RenderBalanceChart | js/app-vintage-fixed.js:500-550 | the chart as written, for a browser at any offset from UTC: no chart without a date; otherwise a series under the strict cut-off whose points add the previous day's rows exactly when the zone lags; its last point is the projected balance minus today's net, or, in a lagging zone, minus the projection date's own net |
| AppVintageFixed.SameLocalDate | js/app-vintage-fixed.js:538-541 | a row read at 03:00 UTC of day `d` and a point at UTC midnight of day `c` have the same local date exactly when `d` is `c` less the zone's lag, which is 0 or 1 |
| AppVintageFixed.LagBand | js/app-vintage-fixed.js:538-541 | the lag is 1 exactly when the offset, less one minute, is under three hours modulo a day; between UTC-12 and UTC+14 exactly for UTC-3 up to but not including UTC |
| AppVintageFixed.MatchedDayIsSameLocalDate | js/app-vintage-fixed.js:536-541 | the day the inner pass matches for the point after `prev` is `prev` in a lagging zone and the point's own day otherwise |
| AppVintageFixed.ChartMissesOneDay | js/app-vintage-fixed.js:503-550 | projecting to tomorrow: at UTC one income dated today is projected as 100 while the chart's last point is 0; at UTC-3 one income dated tomorrow is projected as 100 while the last point is 0 |
| AppVintageFixed.RenderBalanceChartCorrected | js/app-vintage-fixed.js:500-550 | the chart as intended: each point adds the rows of its own calendar day whatever the zone, every point is the inclusive balance of its day, and the last equals the projected balance of `updateProjection` |
| AppVintageFixed.BuildContents | js/app-vintage-fixed.js:836-884 | the turns sent are the user and model messages of the last eight, in order; the counter equals the messages after the last data message; the summary is injected exactly when the history is empty, the counter reaches 5 or the prompt asks about money, and then the final message carries the tag |
| AppVintageFixed.RefreshRule | js/app-vintage-fixed.js:842-871 | with no data message in the stored history, "five or more since the data" holds exactly when the history has five or more messages |
| ChatContext.Window | js/app-vintage-fixed.js:839 | `slice(-n)` is a suffix of length min(n, length), and the whole history for `n` = 0 |
| ChatContext.SinceLastData | js/app-vintage-fixed.js:842-848 | the count is at most the window; the messages it covers are not data messages; the one before them, if any, is one |
| ChatContext.CountSinceData | js/app-vintage-fixed.js:842-848 | the backward loop with `break` computes that count |
| ChatContext.CounterIsWindowLength | js/app-vintage-fixed.js:839-848 | without data messages in the history the counter is the window length |
| ChatContext.KeptTurnsMembers | js/app-vintage-fixed.js:850-862 | exactly the user and model messages are forwarded, in order; other roles are dropped |
| ChatContext.ForApi | js/app.js:512-515 | the role mapping keeps every content and position, leaves only user and model, and keeps user messages the user's |
| AppJs.RequestContents | js/app.js:512-525 | the last ten messages, role-mapped, then one user message that contains the summary and the question |
| AppJs.QuestionCarries | js/app.js:518-523 | the question text sent to the model contains both the financial summary and the user's prompt |
| AppJs.Upcoming | js/app.js:494 | the first five transactions, in list order, whose date is not earlier than now |
| AppJs.NotEarlierThan | js/app.js:494 | the filter keeps exactly the transactions not earlier than now |
| AppJs.FormatDateHeader | js/app.js:253-264 | the header label is about the row's own day |
| AppJs.HeaderLabelByDistance | js/app.js:253-264 | "Hoje" exactly for today, "Amanhã" exactly for the next day, the weekday form for every other day, earlier or later |
| AppVintage.RequestContents | js/app-vintage.js:552-565 | the last six messages, role-mapped, then one user message that starts with the summary and contains the query |
| Session.LocalPart | js/app-vintage-fixed.js:229 | `email.split('@')[0]` is the prefix up to the first '@', or the whole address without one |
| Session.ShownName | js/app-vintage-fixed.js:229 | a non-empty display name wins; otherwise the e-mail's local part |
| Session.AppState.constructor | js/app.js:31-35 | the page starts with nobody signed in and empty lists |
| Session.AppState.SignIn | js/app-vintage-fixed.js:225-229 | the identity is recorded, with the shown name; the lists are left to the listeners |
| Session.AppState.SignOut | js/app-vintage-fixed.js:259-267 | the identity is cleared and both lists emptied |
| Session.AppState.OnTransactionsSnapshot | js/app-vintage-fixed.js:297 | the snapshot replaces the ledger wholesale, and nothing else changes |
| Session.AppState.OnChatSnapshot | js/app-vintage-fixed.js:310 | the snapshot replaces the history wholesale, and nothing else changes |
| DueStatus.StatusOf | js/future-transactions.js:197-206 | late exactly for a negative distance, due today exactly for 0, soon exactly for 1 to 3, later beyond; with the day counts shown |
| DueStatus.HighlightOf | js/future-transactions.js:183-187 | exactly one of overdue, today and none: overdue exactly for an earlier text, "today" exactly for the same text, none exactly for a later text |
| DueStatus.HighlightByDate | js/future-transactions.js:183-187 | the highlight is "overdue" exactly for earlier days, "today" exactly for today, none exactly for later days |
| DueStatus.CeilDivShift | js/future-transactions.js:195 | `Math.ceil` of whole days plus less than a day gives one more day exactly when the part is positive |
| DueStatus.DiffDaysAsWritten | js/future-transactions.js:189-195 | `diffDays` as written equals the true day distance in zones at or east of UTC, and one more in every zone west of UTC, within a day of UTC |
| DueStatus.DueTodayShownAsSoon | js/future-transactions.js:183-206 | in Brasília time an item due today is highlighted as "today" but its status line says "in 1 day" |
| DueStatus.DiffDays | js/future-transactions.js:189-195 | the intended distance is 0 exactly for today and negative exactly for earlier days |
| DueStatus.HighlightMatchesStatus | js/future-transactions.js:183-206 | with the intended distance, overdue exactly when late, "today" exactly when due today, none exactly when due later |
| DueStatus.ItemStatus | js/future-transactions.js:183-206 | with the intended distance (`DiffDays`) in place of `diffDays` as written, the highlight and status line of one item agree, and "soon" means 1 to 3 days |
| FutureStore.Without | js/future-transactions.js:273 | after deleting a document, exactly the documents with other ids are left |
| FutureStore.Store.AddFuture | js/future-transactions.js:102 | a successful `addDoc` appends the item under a fresh id; a failed one changes nothing |
| FutureStore.Store.AddEntry | js/future-transactions.js:258 | a successful `addDoc` on the ledger appends the entry; a failed one changes nothing |
| FutureStore.Store.DeleteFuture | js/future-transactions.js:273 | a successful `deleteDoc` removes the document; a failed one changes nothing |
| Scheduled.ConfirmedEntry | js/future-transactions.js:247-256 | the ledger entry carries the item's description and amount, today's date, the type `expense` exactly for expenses and `income` otherwise, the original due date and the confirmation flag |
| Scheduled.ConfirmedEntryInBalance | js/future-transactions.js:247-258 | a confirmation leaves today's strict balance as it was and moves today's inclusive balance by the signed amount |
| Scheduled.FutureTransactionsManager.constructor | js/future-transactions.js:17-30 | empty lists; references and listeners exist exactly when there is a user |
| Scheduled.FutureTransactionsManager.RefFor | js/future-transactions.js:102 | the reference chosen belongs to the user and is the expenses collection exactly for `expense`, the incomes collection otherwise (also js/future-transactions.js:272) |
| Scheduled.FutureTransactionsManager.InitializeCollections | js/future-transactions.js:32-37 | with a user, the references point at the user's two collections; without one nothing changes |
| Scheduled.FutureTransactionsManager.LoadFutureTransactions | js/future-transactions.js:116-140 | a listener is registered for each collection that has a reference, and only for those |
| Scheduled.FutureTransactionsManager.OnExpensesSnapshot | js/future-transactions.js:118-127 | the list is emptied and refilled with the snapshot in due-date order, a permutation of the stored collection; nothing else changes |
| Scheduled.FutureTransactionsManager.OnIncomesSnapshot | js/future-transactions.js:130-139 | the same for incomes |
| Scheduled.FutureTransactionsManager.AddFutureTransaction | js/future-transactions.js:86-114 | a pending item of this user goes to the expense collection exactly for `expense`; without a reference or on failure the store is unchanged |
| Scheduled.FutureTransactionsManager.DeleteFutureTransaction | js/future-transactions.js:270-279 | the document is removed from the collection of its type, or the store is unchanged (a failure is swallowed) |
| Scheduled.FutureTransactionsManager.ConfirmTransaction | js/future-transactions.js:242-268 | if the ledger write fails nothing changes; if it succeeds the entry is appended, and the scheduled document is removed or, if the removal fails, left in place |
| Scheduled.FutureTransactionsManager.Cleanup | js/future-transactions.js:281-288 | exactly the listeners that were registered are stopped, which happens only for a user |

## Left out

- Rendering, the DOM, modals, forms and event wiring. This includes `initializeEventListeners`, the `render*` helpers of the manager and `createFutureItemElement`'s markup. Only its highlight and status decisions are modelled.
- Firebase initialisation, authentication calls, their error messages, and the `fetch` to the language model with its response parsing. The request contents are modelled as values.
- Locale formatting: currency text, `toLocaleDateString` labels on headers and chart points, and the chart drawing. Header labels are modelled as a datatype and chart labels as dates.
- AppJs.FormatDateHeader: the kind of label ("Hoje", "Amanhã" or the weekday form) is decided by the row's UTC day, but the day printed in it is the local date of 03:00 UTC, which west of UTC-3 is the day before; the model does not print the day.
- AppVintageFixed.RenderBalanceChart: the `dd/mm` label of each point is its day, while the source prints the local date of the point's UTC midnight, which west of UTC is the day before.
- `parseFloat` and floating point. Amounts are integer cents, so rounding drift is not modelled.
- Time zones. The model uses calendar days, with three exceptions that take the browser's offset into account: the strict/inclusive cut-off of the dashboards, the `diffDays` reading, and the chart's `toDateString` match (the last two take a time-zone offset parameter). Daylight-saving changes are not modelled: a day is always 24 hours.
- One shared `today`. `app.js` and `app-vintage.js` take today's date and month from UTC, the fixed copy from local time, and a confirmation dates its ledger entry with the UTC date (js/future-transactions.js:250). West of UTC the copies can disagree on today's date near midnight; in Brasília, from 21:00 the UTC date is already the next day. The model passes one `today` to all three copies and to the confirmation.
- Dates are assumed well formed; the string comparison of `YYYY-MM-DD` is proved only for years up to 9999.
- The money keyword regular expression is a boolean parameter (`keywordMatch`), and the summary figures are a text parameter.
- The clock, `new Date()`, is a parameter: a day, or an `Instant` for `app.js`'s upcoming filter.
- `createdAt`/`timestamp` server fields, and the ordering of snapshots by them. A snapshot is given in the order the query delivers.
- `Statistics.SortNames`: it models JavaScript's default `sort` on strings by code unit. The text is a sequence of characters, so UTF-16 surrogate pairs are not modelled.
- `Statistics.GroupByDescription`: a description equal to an inherited `Object` property name (such as `constructor`) is treated like any other key.
- `Sorting.Sort`: the stability of `Array.prototype.sort` is not proved, only the order and the permutation.
- Listeners are not unsubscribed on sign-out. The snapshot handlers of `Session.AppState` require a signed-in user, so a late snapshot after sign-out is not modelled.
- Re-entrancy between concurrent `async` calls, such as two confirmations of the same item at once.
- Confirmation is two independent writes, with no transaction around them, and the projection reads only the ledger, never the scheduled items.

## Findings

| source | as written | input that shows it | evidently intended | confidence | as-written member | corrected member |
|---|---|---|---|---|---|---|
| js/future-transactions.js:189-195 | `diffDays` subtracts today's UTC midnight from the item's local midnight and rounds up | an item due today, in Brasília time (offset 180 minutes) | 0 days, "Vence hoje!", matching the "today" highlight | not executed | DueStatus.DueTodayShownAsSoon | DueStatus.HighlightMatchesStatus |
| js/app-vintage-fixed.js:503-550 | the opening pass keeps rows dated before today (03:00 UTC against UTC midnight); each daily point adds the rows whose local date equals the local date of its UTC midnight, which from UTC-3 up to UTC is the day before | projecting to tomorrow: at UTC, one income of 100 dated today (last point 0); at UTC-3, one income of 100 dated tomorrow (last point 0) | the last point equals the projected balance (100) in every zone | not executed | AppVintageFixed.ChartMissesOneDay | AppVintageFixed.RenderBalanceChartCorrected |
