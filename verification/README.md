# Financial aggregation engine of the tutoring-business backend

This project models, in Dafny, the part of the NestJS accounting backend that
turns stored records into figures:

- **Transactions** (`TransactionsService`): creation with derived `taxAmount`
  and `netAmount`, the conditional recompute on `update`, `exclude`/`activate`,
  the list query of `findWithFilters` (type, any-of tags, status, inclusive date
  range overridden by a month window and that by a year window, case-insensitive
  search, sort, skip/limit) and the active-only `getSummary` fold into totals and
  per-tag maps (`TransactionSummary`).
- **Dashboard** (`DashboardService`): the reporting period (a missing bound
  defaults to the current month's edge), the distinct-package count of
  confirmed sessions, the subscription-transaction count, the period's
  transaction summary, the payroll total, the per-teacher payroll breakdown and
  `netProfit`.
- **Dashboard controller** (`DashboardController`): the salary breakdown's own
  period policy (a missing bound stays open, so no dates means all-time) and the
  pass-through of the dashboard filter.
- **Packages** (`PackagesService`): the array-backed package store (`create`,
  `findOne`, `update`, `remove`) and `calculateProfit` under both readings of an
  expense value — a percentage of the price (what the service computes) and a
  dollar amount (what the unit and end-to-end fixtures and the response's
  documentation expect).
- **Records and requests**: `Transaction` with its enumerations and schema
  defaults, `Session`, `Teacher`, the creation and update bodies with their
  validators, and the list filter with its sort enumerations and paging bounds.

Stored collections are sequences; a MongoDB query object is an explicit
predicate (`TransactionsService.Matches`, `DashboardService.ConfirmedIn`); the
package file is a `seq<Package>` passed in and returned. Instants are integer
milliseconds on the local wall clock, and the `Date` constructor used for the
month, year and current-month windows follows ECMAScript's MakeDay/MakeTime
(`Calendar`), including month overflow and day 0 as the previous month's last
day. Money, rates and durations are `real`. The clock (`now`), the random
package id (`newId`), record ids and creation times, and the date-text parser of
the controller (`parse`) are parameters. A populated teacher reference is a
lookup in a sequence of teachers that may find nothing.

Where the code and the written design disagree, the model follows the code:

- the date sort field is named `transactionDate`, not `date`;
- no global validation pipe is installed, so the DTO validators are predicates
  (`CreateTransactionDto.Valid`, `TransactionFilterDto.Valid`,
  `PackagesService.ValidInput`) that the services do not require. A page of 0
  or a missing page is page 1 and a limit of 0 or a missing limit is 50, as
  `filters.page || 1` and `filters.limit || 50` give on numbers; a negative page
  with a positive limit, or a negative limit on a page after the first, gives a
  negative skip `(page - 1) * limit`, which the database refuses (`TransactionsService.FindWithFilters` returns
  `Failure(NegativeSkip)`), and a negative limit is otherwise read as its
  magnitude;
- the order among equal sort keys is left to the database by the code; the
  model sorts with a stable insertion sort (`TransactionOrder.Sort`).

## Model

| member | source | states |
|---|---|---|
| Calendar.CivilOf | src/transactions/transactions.service.ts:76-97 | the calendar date of any instant is a valid date whose day number is the instant's day |
| Calendar.CivilOfDayNumber | src/transactions/transactions.service.ts:76-97 | round trip: every instant of a valid date's day maps back to that date |
| Calendar.MakeDayFirstOfMonth | src/transactions/transactions.service.ts:78 | `new Date(y, m - 1, 1)` is the first day of month m |
| Calendar.MakeDayZeroOfNextMonth | src/transactions/transactions.service.ts:79-87 | day 0 of the next month is the last day of month m, whatever its length, leap Februaries included |
| Calendar.MonthWindowBounds | src/transactions/transactions.service.ts:76-89 | the month window runs from midnight of day 1 to 23:59:59.999 of the last day and spans exactly the month's days |
| Calendar.MonthWindowIsCalendarMonth | src/transactions/transactions.service.ts:76-89 | an instant lies in the month window exactly when its calendar year and month are the filter's |
| Calendar.YearWindowIsItsMonths | src/transactions/transactions.service.ts:91-97 | the year window starts with January's first instant and ends with December's last |
| Calendar.YearWindowIsCalendarYear | src/transactions/transactions.service.ts:91-97 | an instant lies in the year window exactly when its calendar year is the year the `Date` constructor uses |
| Calendar.YearUnique | src/transactions/transactions.service.ts:91-97 | at most one year contains a given day |
| Calendar.MonthUnique | src/transactions/transactions.service.ts:76-89 | at most one month of a year contains a given day |
| Text.ContainsIgnoringCaseIff | src/transactions/transactions.service.ts:99-105 | the case-insensitive search finds the text exactly when it occurs at some position, ignoring ASCII case |
| Text.LexLeqTotal | src/transactions/transactions.service.ts:107-113 | any two names are comparable in the name sort |
| Text.LexLeqTransitive | src/transactions/transactions.service.ts:107-113 | the name order is transitive |
| TransactionsEntity.ParseType | src/transactions/transactions.entity.ts:5-8 | a stored type is accepted exactly when it is `income` or `expense`, and it reads back as its name |
| TransactionsEntity.ParseStatus | src/transactions/transactions.entity.ts:10-13 | a stored status is accepted exactly when it is `active` or `excluded`, and it reads back as its name |
| TransactionsEntity.EnumNamesRoundTrip | src/transactions/transactions.entity.ts:5-13 | every type and status value is stored as a name that reads back as itself |
| TransactionsEntity.ApplyDefaults | src/transactions/transactions.entity.ts:43-88 | saving fills a missing status with active, tags with the empty list and rate, tax and net with 0, and keeps every supplied field |
| TransactionsEntity.DefaultsFillOnlyMissingFields | src/transactions/transactions.entity.ts:43-88 | a bare draft saves as an active, untagged record with zero rate, tax and net; a full draft keeps all five values |
| SessionsEntity.NewSession | backend/src/sessions/sessions.entity.ts:11-55 | a session is confirmed unless created with `isConfirmed: false`, and keeps its teacher, package, date and duration |
| TransactionFilterDto.ParseSortField | backend/src/transactions/dto/request/transaction-filter.dto.ts:14-19 | a sort field is accepted exactly when it is one of the four field names, and it reads back as its name |
| TransactionFilterDto.ParseSortOrder | backend/src/transactions/dto/request/transaction-filter.dto.ts:21-24 | a sort order is accepted exactly when it is `asc` or `desc` |
| TransactionFilterDto.SortNamesRoundTrip | backend/src/transactions/dto/request/transaction-filter.dto.ts:14-24 | every sort field and order reads back from its name |
| TransactionFilterDto.ValidityIsPagingBounds | backend/src/transactions/dto/request/transaction-filter.dto.ts:127-141 | a filter is valid exactly when its limit and page alone are; a limit is acceptable exactly when it lies in 1..100 and a page exactly when it is at least 1; the empty filter is valid |
| TransactionOrder.PrecedesTotal | src/transactions/transactions.service.ts:107-113 | any two transactions are ordered one way or the other for every sort field and direction |
| TransactionOrder.PrecedesTransitive | src/transactions/transactions.service.ts:107-113 | the sort order is transitive |
| TransactionOrder.Insert | src/transactions/transactions.service.ts:120-122 | inserting adds exactly one copy of the record |
| TransactionOrder.InsertSorted | src/transactions/transactions.service.ts:120-122 | inserting into a sorted list keeps it sorted |
| TransactionOrder.Sort | src/transactions/transactions.service.ts:120-122 | the sorted list is a permutation of its input and is ordered by the sort specification |
| TransactionOrder.SortKeepsSortedInput | src/transactions/transactions.service.ts:120-122 | a list already in order comes back unchanged |
| TransactionsService.Create | src/transactions/transactions.service.ts:18-35 | the saved record satisfies tax = amount × rate and net = amount − tax, with the rate 0 when absent, status active and tags empty by default, and every request field kept |
| TransactionsService.CreateSplitsAmount | src/transactions/dto/request/create-transaction.dto.ts:27-85 | for a request the validators accept, tax and net both lie between 0 and the amount and add up to it |
| TransactionsService.CreateExamples | src/transactions/transactions.service.ts:22-24 | 1000 at rate 0.1 gives 100 and 900; 1000 at rate 0 or no rate gives 0 and 1000; the new record is active |
| TransactionsService.IndexOf | src/transactions/transactions.service.ts:128-132 | the position found holds the id and no earlier one does; nothing is found exactly when no record has the id |
| TransactionsService.IndexOfDependsOnIds | src/transactions/transactions.service.ts:128-132 | the lookup depends only on the ids in the collection |
| TransactionsService.FindOne | src/transactions/transactions.service.ts:128-132 | `findById` returns the first stored record with the id, or null exactly when no record has it |
| TransactionsService.ApplySet | src/transactions/transactions.service.ts:161-163 | an update never changes the record's id or creation time |
| TransactionsService.Update | src/transactions/transactions.service.ts:134-164 | a missing id gives null and an unchanged collection; otherwise the first record holding the id is replaced in place by the result, which keeps the id |
| TransactionsService.UpdateTouchesOneRecord | src/transactions/transactions.service.ts:161-163 | every position other than the first match is unchanged, and the match holds the returned record |
| TransactionsService.UpdateRecomputes | src/transactions/transactions.service.ts:139-158 | a patch with an amount or a rate takes each missing one from the stored record and recomputes tax and net from them |
| TransactionsService.UpdateKeepsMoneyFields | src/transactions/transactions.service.ts:139-142 | a patch without amount or rate leaves amount, rate, tax and net as stored |
| TransactionsService.UpdateWritesPatchFields | src/transactions/transactions.service.ts:161-163 | every other patch field overwrites when present and is kept when absent |
| TransactionsService.UpdatePreservesConsistency | src/transactions/transactions.service.ts:134-164 | for an update body of the DTO's shape (any subset of the creation fields, no null values), a record whose tax and net are derived from amount and rate stays so |
| TransactionsService.UpdateExample | backend/src/transactions/transactions.service.spec.ts:331-393 | 1000 at 0.1 patched to 1200 at 0.15 gives tax 180 and net 1020 |
| TransactionsService.Exclude | src/transactions/transactions.service.ts:173-177 | excluding returns the stored record with status excluded and writes it back at its own position, or gives null and no change for a missing id |
| TransactionsService.Activate | src/transactions/transactions.service.ts:179-183 | activating returns the stored record with status active and writes it back at its own position, or gives null and no change for a missing id |
| TransactionsService.ExcludeThenActivate | src/transactions/transactions.service.ts:173-183 | excluding an active record and activating it again restores the collection |
| TransactionsService.HasAnyTagIff | src/transactions/transactions.service.ts:53-56 | the tag criterion holds exactly when the record shares at least one tag with the filter list |
| TransactionsService.Select | src/transactions/transactions.service.ts:120-121 | the query keeps exactly the stored records that match it |
| TransactionsService.SelectAppend | src/transactions/transactions.service.ts:120-121 | selecting from two parts and concatenating equals selecting from the whole, in order |
| TransactionsService.MatchesIffMeetsFilter | src/transactions/transactions.service.ts:46-105 | the built query keeps a record exactly when its type and status equal the filter's, it shares a tag with a non-empty tag list, it lies in the date window and the search text occurs in its name or notes; absent or empty criteria impose nothing |
| TransactionsService.SortSpecOf | src/transactions/transactions.service.ts:107-113 | without sortBy the order is transactionDate descending; with it, the named field, descending exactly when sortOrder is `desc` |
| TransactionsService.EffectiveLimit | src/transactions/transactions.service.ts:116 | a missing or zero limit becomes 50; any other is used |
| TransactionsService.EffectivePage | src/transactions/transactions.service.ts:117 | a missing or zero page becomes 1; any other is used |
| TransactionsService.Paginate | src/transactions/transactions.service.ts:118-124 | the page is the slice starting at skip of at most limit records, empty past the end |
| TransactionsService.PaginateKeepsOrder | src/transactions/transactions.service.ts:118-124 | a page of a sorted list is sorted and holds only its records |
| TransactionsService.SortedMatches | src/transactions/transactions.service.ts:120-122 | the sorted matches are a permutation of the matches, in the requested order |
| TransactionsService.FindWithFilters | src/transactions/transactions.service.ts:43-126 | the list fails only for a negative skip; otherwise it is exactly the slice of the sorted matches that starts at `(page − 1) × limit` and holds `limit` records, or fewer at the end, so every record on it is a stored match in the requested order |
| TransactionsService.ValidFilterPages | backend/src/transactions/dto/request/transaction-filter.dto.ts:127-141 | a filter the validators accept never fails and yields at most its limit, or 50 records |
| TransactionsService.DefaultOrderNewestFirst | src/transactions/transactions.service.ts:111-112 | without sortBy, later transaction dates come first |
| TransactionsService.PagePastEndIsEmpty | src/transactions/transactions.service.ts:118-124 | a page that starts past the last match is empty |
| TransactionsService.FirstPageHoldsAllMatches | src/transactions/transactions.service.ts:115-125 | when all matches fit on page 1, page 1 holds every match |
| TransactionsService.SecondPageExample | backend/src/transactions/transactions.service.spec.ts:268-287 | page 2 with limit 10 starts at the eleventh sorted match |
| TransactionsService.GetSummary | src/transactions/transactions.service.ts:240-247 | gross profit is total income minus total expenses |
| TransactionsService.SummaryIgnoresListCriteria | src/transactions/transactions.service.ts:193-209 | only type, tags and the explicit date range select what the summary folds; month, year, status, search, sort and paging do not |
| TransactionsService.SummaryAddsOneRecord | src/transactions/transactions.service.ts:219-238 | one more record adds its net and tax (income) or amount (otherwise) to the totals and, for income, its net to each category once per listing; an excluded record changes nothing |
| TransactionsService.SummaryExample | backend/src/transactions/transactions.service.spec.ts:465-523 | 5000 and 3000 net income with 500 and 300 tax and a 2000 expense give 8000, 2000, 800 and 6000 |
| TransactionSummary.Summarize | src/transactions/transactions.service.ts:213-247 | gross profit is total income minus total expenses |
| TransactionSummary.TagShareIsMultiple | src/transactions/transactions.service.ts:225-228 | a record credits a category its value times the number of times its tags list it |
| TransactionSummary.AddToTagsGet | src/transactions/transactions.service.ts:225-228 | crediting a tag list adds the value once per listing to each category, reading a missing one as 0 |
| TransactionSummary.AddToTagsKeys | src/transactions/transactions.service.ts:225-228 | crediting creates exactly the categories the tags name |
| TransactionSummary.AccumulateAppend | src/transactions/transactions.service.ts:219-238 | folding a concatenation is folding the second part after the first |
| TransactionSummary.AccumulateTotals | src/transactions/transactions.service.ts:219-238 | the fold adds the net income, the expenses and the tax of its input |
| TransactionSummary.AccumulateIncomeCategory | src/transactions/transactions.service.ts:219-228 | the fold adds each income record's net to a category once per listing |
| TransactionSummary.AccumulateExpenseCategory | src/transactions/transactions.service.ts:229-237 | the fold adds each non-income record's amount to a category once per listing |
| TransactionSummary.AccumulateCategoryKeys | src/transactions/transactions.service.ts:219-238 | a category appears exactly when it was already there or a record of the matching kind lists it |
| TransactionSummary.SummaryIsReference | src/transactions/transactions.service.ts:213-247 | every figure equals its sum over the input, and a category appears exactly when a record of that kind lists it |
| TransactionSummary.SummaryOfConcatenation | src/transactions/transactions.service.ts:213-247 | the summary of two parts is the sum of their summaries, category by category |
| TransactionSummary.SummaryOfNothing | src/transactions/transactions.service.ts:213-217 | no transactions give zero totals and empty maps |
| TransactionSummary.TagsCountPerListing | src/transactions/transactions.service.ts:225-228 | a record tagged `a, b` credits its whole net to both; one tagged `a, a` credits `a` twice |
| DashboardService.ResolvePeriod | src/dashboard/dashboard.service.ts:37-40 | a supplied bound is used as given |
| DashboardService.DefaultBoundsAreMonthEdges | src/dashboard/dashboard.service.ts:24-40 | a missing start is midnight of the month's first day and a missing end the last millisecond of its last day |
| DashboardService.DefaultPeriodIsCurrentMonth | src/dashboard/dashboard.service.ts:24-40 | with no bounds the period holds exactly the instants of now's calendar month, now included |
| DashboardService.ConfirmedIn | src/dashboard/dashboard.service.ts:180-186 | the session query keeps exactly the confirmed sessions dated inside the window |
| DashboardService.ConfirmedInAppend | src/dashboard/dashboard.service.ts:180-186 | the session query distributes over concatenation |
| DashboardService.ActiveSessionPackages | src/dashboard/dashboard.service.ts:84-94 | the count is at most the number of confirmed in-period sessions and is 0 exactly when there are none |
| DashboardService.CountedPackageIff | src/dashboard/dashboard.service.ts:88-93 | a package is counted exactly when one of its sessions is confirmed and dated in the period |
| DashboardService.ActiveSessionPackagesStep | src/dashboard/dashboard.service.ts:88-93 | one more session raises the count by one exactly when it is confirmed, in the period and of a package not yet counted |
| DashboardService.ActiveSubscriptionPackages | src/dashboard/dashboard.service.ts:96-111 | the count never exceeds the number of transactions |
| DashboardService.SubscriptionQueryIff | src/dashboard/dashboard.service.ts:102-109 | a transaction is counted exactly when it is active income dated in the period and tagged `subscription` or `subscription-package` |
| DashboardService.SubscriptionCountStep | src/dashboard/dashboard.service.ts:102-110 | each qualifying transaction adds one, even for the same package; others add nothing |
| DashboardService.TransactionSummaryFor | src/dashboard/dashboard.service.ts:165-172 | gross profit is total income minus total expenses |
| DashboardService.PeriodSummaryIsGetSummary | src/dashboard/dashboard.service.ts:125-172 | the dashboard summary is `getSummary` with the period as its date range |
| DashboardService.FindTeacher | src/dashboard/dashboard.service.ts:185-195 | a session's teacher resolves to a teacher with that id, or to nothing exactly when none has it |
| DashboardService.PayTotalAppend | src/dashboard/dashboard.service.ts:188-200 | the salary sum over a concatenation is the sum of the parts |
| DashboardService.SalariesStep | src/dashboard/dashboard.service.ts:190-199 | one more session adds hourly rate × duration when it is confirmed, in period and its teacher resolves, and nothing otherwise |
| DashboardService.SalariesExample | src/dashboard/dashboard.service.spec.ts:113-137 | 2 hours at 50 and 3 hours at 60 give 280 |
| DashboardService.EntryIndex | src/dashboard/dashboard.service.ts:247-254 | the entry found belongs to the teacher; nothing is found exactly when no entry does |
| DashboardService.FirstSeenSpec | src/dashboard/dashboard.service.ts:247-262 | first-seen order lists each resolved teacher once and no one else |
| DashboardService.UnseenIdHasNothing | src/dashboard/dashboard.service.ts:234-260 | a teacher with no resolved session has accumulated no hours and no pay |
| DashboardService.BreakdownMatchesReference | src/dashboard/dashboard.service.ts:224-262 | the breakdown has one entry per resolved teacher in first-seen order, with the teacher's name and the sums of hours and of rate × duration over that teacher's sessions |
| DashboardService.CreditKeepsReference | src/dashboard/dashboard.service.ts:234-260 | crediting one more session keeps the breakdown equal to its reference |
| DashboardService.CreditExisting | src/dashboard/dashboard.service.ts:256-258 | a later session of a listed teacher adds to that entry only |
| DashboardService.CreditNew | src/dashboard/dashboard.service.ts:247-254 | a teacher's first session appends a new entry at the end |
| DashboardService.BreakdownIdsDistinct | src/dashboard/dashboard.service.ts:247-262 | no teacher has two entries, and the listed teachers are exactly the resolved ones |
| DashboardService.BreakdownSumsToPayTotal | src/dashboard/dashboard.service.ts:190-199 | the breakdown's pay adds up to the salary loop over the same sessions |
| DashboardService.BreakdownAgreesWithSalaries | src/dashboard/dashboard.service.ts:175-262 | for the same period, the breakdown's pay sums to `calculateTeacherSalaries` |
| DashboardService.BreakdownOfNothing | src/dashboard/dashboard.service.ts:224-262 | no sessions give an empty breakdown |
| DashboardService.BreakdownExample | src/dashboard/dashboard.service.spec.ts:162-236 | 5 and 3 hours for teacher1 at 50 and 4 hours for teacher2 at 60 give teacher1 8 h and 400, then teacher2 4 h and 240 |
| DashboardService.GetDashboard | src/dashboard/dashboard.service.ts:20-82 | net profit is income − expenses − salaries, gross profit is income − expenses, and the resolved period is returned |
| DashboardService.DashboardFiguresAreTheirSources | src/dashboard/dashboard.service.ts:42-81 | the two package counts are the distinct-package and subscription counts over the resolved period; income, expenses, tax and both category maps come unchanged from the period's summary; salaries equal the breakdown's pay |
| DashboardService.NetProfitExample | src/dashboard/dashboard.service.spec.ts:72-139 | two active incomes netting 5000 and 3000, a 2000 expense, and 2 h at 50 plus 3 h at 60 inside the period give income 8000, expenses 2000, tax 800, gross 6000, salaries 280 and net 5720 |
| DashboardController.BreakdownBound | backend/src/dashboard/dashboard.controller.ts:69-70 | a missing or empty date text is no bound; any other is its parsed date |
| DashboardController.BreakdownWindow | backend/src/dashboard/dashboard.controller.ts:68-75 | each bound of the window is the bound of its own text |
| DashboardController.NoDatesMeansAllTime | backend/src/dashboard/dashboard.controller.ts:68-70 | without dates every confirmed session counts, and empty texts act as missing ones |
| DashboardController.OneBoundLeavesTheOtherOpen | backend/src/dashboard/dashboard.controller.ts:69-70 | a start alone bounds only from below, an end alone only from above |
| DashboardController.SuppliedDatesArePassedOn | backend/src/dashboard/dashboard.controller.ts:72-75 | supplied texts reach the service as their parsed dates, both inclusive |
| DashboardController.BreakdownAndDashboardPoliciesDiffer | backend/src/dashboard/dashboard.controller.ts:68-70 | without dates a confirmed session of another month is in the breakdown but outside the dashboard's default period |
| PackagesService.Create | src/packages/packages.service.ts:25-34 | exactly one package, the body plus the new id, is appended and the earlier ones are unchanged |
| PackagesService.IndexOf | src/packages/packages.service.ts:50-51 | the position found holds the id and no earlier one does; nothing is found exactly when no package has the id |
| PackagesService.FindOne | src/packages/packages.service.ts:40-43 | the first stored package with the id, or null exactly when none has it |
| PackagesService.Merge | src/packages/packages.service.ts:52 | each field of the patch overwrites when present and is kept when absent; the id is kept |
| PackagesService.Update | src/packages/packages.service.ts:45-55 | an absent id gives null and an unchanged store; otherwise the first match is replaced in place by the merge of it with the patch, which is returned |
| PackagesService.Remove | src/packages/packages.service.ts:57-63 | an absent id gives NotFound("Package not found"); otherwise one package is removed |
| PackagesService.CreateThenFind | src/packages/packages.service.ts:25-43 | a package created under an unused id is found under it |
| PackagesService.RemoveUndoesCreate | src/packages/packages.service.ts:25-63 | removing what was just created under an unused id restores the store |
| PackagesService.UpdateTouchesOneRecord | src/packages/packages.service.ts:49-54 | the first match becomes the merged package, which is returned and found, and every other position is unchanged |
| PackagesService.IndexOfFirstMatch | src/packages/packages.service.ts:50 | the first position holding the id is the one found |
| PackagesService.EmptyPatchChangesNothing | src/packages/packages.service.ts:52 | an empty patch leaves the store as it was |
| PackagesService.RemoveKeepsTheRestInOrder | src/packages/packages.service.ts:59-61 | packages before the match stay, those after shift down by one, and exactly one copy of the match goes |
| PackagesService.RemoveThenFindNothing | src/packages/packages.service.ts:57-63 | with unique ids, nothing with the id is left after removal |
| PackagesService.Costs | src/packages/packages.service.ts:72-75 | each category keeps its place and gets its value's amount under the chosen reading |
| PackagesService.CalculateProfit | src/packages/packages.service.ts:65-84 | an unknown id gives NotFound("Package not found"); otherwise name and price are echoed, the categories are the package's in order, each amount follows the reading and profit is price − total |
| PackagesService.DollarTotalIsValueSum | src/packages/packages.service.ts:71-76 | under the dollar reading the amounts are the values and the total is their sum |
| PackagesService.PercentTotalIsShareOfPrice | src/packages/packages.service.ts:71-76 | under the percentage reading the total is the summed percentages over 100 times the price |
| PackagesService.TotalUnderEachReading | src/packages/packages.service.ts:65-84 | for a stored package the dollar total is the value sum and the percentage total that share of the price |
| PackagesService.ProfitCanBeNegative | src/packages/packages.service.ts:82 | a corollary of `CalculateProfit`'s profit clause, kept as a record: profit has no floor at 0, it is negative exactly when the expenses exceed the price |
| PackagesService.DollarReadingUnitExample | backend/src/packages/packages.service.spec.ts:175-198 | dollar reading: price 1000 with 100, 500 and 200 gives expenses 800 and profit 200 |
| PackagesService.DollarReadingEndToEndExample | backend/test/packages.e2e-spec.ts:93-121 | dollar reading: price 1200 with 150 and 600 gives expenses 750 and profit 450 |
| PackagesService.PercentReadingUnitExample | src/packages/packages.service.ts:72-76 | percentage reading of the same 1000 fixture: amounts 1000, 5000, 2000, expenses 8000 and profit −7000 |
| PackagesService.PercentReadingShareExample | src/packages/packages.service.ts:72-76 | percentage reading: 10, 50 and 20 percent leave a fifth of the price as profit |

## Left out

- Persistence: the Mongoose `find`, `distinct`, `countDocuments`, `populate`, `findByIdAndUpdate` and `deleteOne` calls and the JSON file reads and writes of the package store. They are replaced by in-memory sequences; a failed package-file read (which the code turns into an empty store) is not modelled.
- Transactions `findAll` and `remove`, the other controllers, the session and teacher services, the modules, `main.ts`, Swagger decorators, the frontend and the seed scripts: routing, pass-through CRUD or display only.
- `TeacherSession` and the tax-rate schema: no behaviour in the modelled code.
- JavaScript `Date` parsing of query texts and the local time zone: dates are given as instants; the controller's text parsing is the `parse` parameter, and an unparseable text (an invalid `Date`) is not modelled.
- How Mongoose casts an `undefined` bound in the salary breakdown's `{ $gte, $lte }`: the model treats a missing bound as open, which is the all-time behaviour the controller's comment describes.
- `split('-')` and `parseInt` on the month and year texts: the filter carries the two integers; text that parses to `NaN` or a month outside 1..12 is not modelled.
- Query text for `limit`, `page` and `tags`: these are modelled with their declared types (numbers and a list). As raw query text `"0"` is truthy, so `?page=0` keeps page 0 and gives a negative skip and `?limit=0` keeps limit 0, which means no limit, where the model uses page 1 and limit 50; a single `?tags=x` arrives as a string, which `$in` refuses. None of these text cases is modelled.
- Query text for `type`, `status`, `sortBy` and `sortOrder`: these are modelled as their enumerations, both in the transaction list and summary and in the dashboard's summary. Since the `@IsEnum` validators do not run, the service compares the raw text: `?sortOrder=DESC` is not `'desc'` and sorts ascending, `?sortBy=date` sorts on a field no record has and leaves the order to the database instead of newest first, and `?type=Income` or `?status=Active` matches no record. Text outside the enumerations is not modelled.
- Calendar.MonthWindowIsCalendarMonth: for years 0..99 the `Date` constructor moves the year to 1900 + y; the window lemmas state the calendar reading through `JsYear`, and the dashboard's default-period lemmas assume the current year lies outside 0..99.
- Floating-point money: amounts, rates and durations are exact reals.
- `$regex` search: the search text is matched literally, so regular-expression metacharacters are not modelled, and case folding covers ASCII letters only.
- Sort ties: the database leaves their order unspecified; the model uses a stable insertion sort, and its stability is stated only as `TransactionOrder.SortKeepsSortedInput`. The name sort compares code points, not UTF-16 code units.
- Paging beyond the validators: a negative skip is modelled as an error and a negative limit as its magnitude; fractional limits and pages are not modelled.
- TransactionsService.Update: the update body is a `TransactionPatch` holding only the creation fields, each present or absent. The service passes the unvalidated body to `$set`, so a body that also carries `taxAmount` or `netAmount` without an amount or rate (such as `{"netAmount": 5}`) writes them unchanged, and a `null` amount or rate passes the `!== undefined` test, is replaced by the stored value in the recompute through `??`, and is still written by `$set`; either leaves tax and net no longer derived from amount and rate. Such bodies are not modelled, so `UpdatePreservesConsistency` holds for bodies of the DTO's shape only.
- Request bodies with extra or missing fields: a package body carries all three fields on `create`; a body carrying `_id` on `update` (which the spread would copy over the stored id) is not modelled.
- TransactionSummary.Summarize: the per-tag maps are Dafny maps read with a default of 0, so every tag is an ordinary key. The service's plain object reads `map[tag] || 0` through the prototype chain: a tag named `constructor` yields the inherited function, which `+` turns into a string, and an assignment to `__proto__` is dropped. Tags with such names are not modelled.
- DashboardService.TransactionSummaryFor: same gap as `TransactionSummary.Summarize`, for the dashboard's own per-tag loop.
- Object key order: the per-tag maps are Dafny maps; the breakdown is listed in first-seen order, which differs from `Object.values` when a teacher id looks like an array index.
- PackagesService.CalculateProfit: the report is a Dafny sequence of category entries, so every stored category appears in `expenses`. The service builds a plain object: a category named `__proto__` (which a parsed JSON body or file holds as an own key) is assigned through the inherited setter, which ignores a number, so that category is missing from the returned `expenses` while `totalExpenses` still counts its amount. Categories with that name are not modelled.
- Package expenses with a repeated category (impossible in a parsed JSON object) are kept as separate entries.
